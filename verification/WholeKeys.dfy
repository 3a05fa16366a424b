/**
 An escape key is one key: the bytes of a cursor or function key reach whoever takes keys in one piece, and
 exactly which steps of the decoder break one up.
 */
module WholeKeys {
  import opened Bytes
  import opened SgrMouse
  import opened StdinScan
  import opened StdinUnits
  import opened StdinFragments
  import opened StdinTokens

  /** The digits and separators of a key's parameters. */
  predicate Parameter(b: Byte) { '0' as int <= b <= ';' as int }

  /**
   What a step lets go of the first `n` bytes of a key: a dry read a lone ESC, or a CSI in which something
   other than parameters was seen; a read what is longer than any CSI the client waits for.
   */
  predicate LetsGo(e: seq<Byte>, n: nat, step: Step)
    requires n < |e|
  {
    if step.Idle? then n == 1 || (n > 2 && exists i :: 2 <= i < n && !Parameter(e[i])) else n > 18
  }

  /** A step ends inside the key `e` at stream offset `off`, and lets go of what was read of it. */
  ghost predicate BreaksUp(e: seq<Byte>, off: nat, pos: nat, steps: seq<Step>)
    decreases |steps|
  {
    && steps != []
    && var end := pos + |steps[0].Bytes()|;
       || (off < end < off + |e| && LetsGo(e, end - off, steps[0]))
       || BreaksUp(e, off, end, steps[1..])
  }

  predicate IsEscapeKey(u: Unit) { IsKey(u) && !IsFocusReport(u.bytes) }

  // ----- A key that is still to come

  /** Units `a` and then the key `u` are unread, and not more of `u` is held than is ever waited for. */
  ghost predicate Ahead(parse: Reader, p: Point, a: seq<Unit>, u: Unit, b: seq<Unit>, rest: seq<Byte>) {
    && Consistent(parse, p, rest) && p.unread == a + [u] + b && IsEscapeKey(u)
    && (a == [] ==> |p.carry.key| <= 18)
  }

  /** Where `u` begins, and what will have been delivered by then. */
  ghost function Begins(p: Point, a: seq<Unit>): nat
    requires |p.carry.Bytes()| <= p.pos
  {
    p.pos - |p.carry.Bytes()| + |Encode(a)|
  }

  ghost function UpTo(p: Point, a: seq<Unit>, dry: set<nat>): Out
    requires |p.carry.Bytes()| <= p.pos
  {
    Deliver(p.delivered, a, p.pos - |p.carry.Bytes()|, dry)
  }

  /** A step that leaves `u` unread: it was not yet reached, or its beginning is held. */
  ghost predicate StaysAhead(
    parse: Reader, p: Point, a: seq<Unit>, u: Unit, b: seq<Unit>, step: Step, rest: seq<Byte>, later: set<nat>,
    q: Point, a': seq<Unit>
  )
    requires |p.carry.Bytes()| <= p.pos
  {
    && (q.delivered, q.carry) == (p.delivered.Then(Apply(parse, p.carry, step).0), Apply(parse, p.carry, step).1)
    && q.pos == p.pos + |step.Bytes()| && Ahead(parse, q, a', u, b, rest)
    && Begins(q, a') == Begins(p, a) && UpTo(q, a', later) == UpTo(p, a, DryAt([step], p.pos) + later)
  }

  lemma DryNow(step: Step, pos: nat, later: set<nat>)
    ensures DryAt([step], pos) + later == if step.Idle? then {pos} + later else later
  {
    assert [step][1..] == [];
  }

  lemma EncodeThree(a: seq<Unit>, u: Unit, b: seq<Unit>)
    ensures Encode(a + [u] + b) == Encode(a) + (u.bytes + Encode(b))
  {
    assert a + [u] + b == a + ([u] + b);
    EncodeConcat(a, [u] + b);
    assert ([u] + b)[1..] == b;
  }

  lemma PartsAreUnits(parse: Reader, a: seq<Unit>, u: Unit, b: seq<Unit>)
    requires AllUnits(parse, a + [u] + b)
    ensures AllUnits(parse, a) && AllUnits(parse, a + [u]) && AllUnits(parse, b)
  {
    var us := a + [u] + b;
    assert forall i :: 0 <= i < |a + [u]| ==> (a + [u])[i] == us[i];
    assert forall i :: 0 <= i < |a| ==> a[i] == us[i];
    assert forall i :: 0 <= i < |b| ==> b[i] == us[|a| + 1 + i];
  }

  /** Before `u` is reached, the carry is the beginning of one of the units before it. */
  lemma HoldsBefore(parse: Reader, p: Point, a: seq<Unit>, u: Unit, b: seq<Unit>, rest: seq<Byte>)
    requires Ahead(parse, p, a, u, b, rest) && p.pos <= Begins(p, a)
    ensures Holds(p.carry, a)
  {
    if a == [] {
      assert p.carry.Bytes() == [];
    } else {
      assert p.unread[0] == a[0];
    }
  }

  /** Once `u` is reached, the carry is its beginning. */
  lemma HoldsKey(parse: Reader, p: Point, a: seq<Unit>, u: Unit, b: seq<Unit>, rest: seq<Byte>)
    requires Ahead(parse, p, a, u, b, rest) && p.pos > Begins(p, a)
    ensures a == [] && p.carry.Bytes() == u.bytes[..p.pos - Begins(p, a)] && p.pos < Begins(p, a) + |u.bytes|
  {
    if a == [] {
      assert p.unread[0] == u;
    }
  }

  // ----- Steps before the key

  /** A step among the units before `u`, read as if they were all there is. */
  lemma StepBefore(
    parse: Reader, p: Point, a: seq<Unit>, u: Unit, b: seq<Unit>, step: Step, rest: seq<Byte>, later: set<nat>
  ) returns (q: Point, a': seq<Unit>)
    requires Ahead(parse, p, a, u, b, step.Bytes() + rest)
    requires p.pos + |step.Bytes()| <= Begins(p, a)
    requires forall d :: d in later ==> d >= p.pos + |step.Bytes()|
    ensures StaysAhead(parse, p, a, u, b, step, rest, later, q, a')
  {
    var front := p.(unread := a);
    var tail := u.bytes + Encode(b);
    HoldsBefore(parse, p, a, u, b, step.Bytes() + rest);
    EncodeThree(a, u, b);
    PartsAreUnits(parse, a, u, b);
    var left := RestBefore(p.carry.Bytes(), step.Bytes(), rest, Encode(a), tail);
    var r := AnyStep(parse, front, step, left, later);
    a' := r.unread;
    q := r.(unread := a' + [u] + b);
    BackTogether(parse, r, q, u, b, left, rest);
    SameBeginning(p, a, step.Bytes(), q, a', left);
    StillAhead(parse, p, a, u, b, step, rest, later, front, r, q);
  }

  lemma StillAhead(
    parse: Reader, p: Point, a: seq<Unit>, u: Unit, b: seq<Unit>, step: Step, rest: seq<Byte>, later: set<nat>,
    front: Point, r: Point, q: Point
  )
    requires |p.carry.Bytes()| <= p.pos && |r.carry.Bytes()| <= r.pos
    requires front == p.(unread := a) && q == r.(unread := r.unread + [u] + b)
    requires (r.delivered, r.carry) == (p.delivered.Then(Apply(parse, p.carry, step).0), Apply(parse, p.carry, step).1)
    requires r.pos == p.pos + |step.Bytes()| && Total(r, later) == Total(front, DryAt([step], p.pos) + later)
    requires Ahead(parse, q, r.unread, u, b, rest) && Begins(q, r.unread) == Begins(p, a)
    ensures StaysAhead(parse, p, a, u, b, step, rest, later, q, r.unread)
  {
  }

  lemma SameBeginning(p: Point, a: seq<Unit>, bytes: seq<Byte>, q: Point, a': seq<Unit>, left: seq<Byte>)
    requires |p.carry.Bytes()| <= p.pos && p.carry.Bytes() + (bytes + left) == Encode(a)
    requires |q.carry.Bytes()| <= q.pos && q.carry.Bytes() + left == Encode(a') && q.pos == p.pos + |bytes|
    ensures Begins(q, a') == Begins(p, a)
  {
    BeginsAfter(p, a, bytes + left);
    BeginsAfter(q, a', left);
  }

  lemma BeginsAfter(p: Point, a: seq<Unit>, left: seq<Byte>)
    requires |p.carry.Bytes()| <= p.pos && p.carry.Bytes() + left == Encode(a)
    ensures Begins(p, a) == p.pos + |left|
  {
  }

  lemma AnyStep(parse: Reader, p: Point, step: Step, rest: seq<Byte>, later: set<nat>) returns (q: Point)
    requires Consistent(parse, p, step.Bytes() + rest)
    requires forall d :: d in later ==> d >= p.pos + |step.Bytes()|
    ensures (q.delivered, q.carry) == (p.delivered.Then(Apply(parse, p.carry, step).0), Apply(parse, p.carry, step).1)
    ensures q.pos == p.pos + |step.Bytes()| && Consistent(parse, q, rest)
    ensures Total(q, later) == Total(p, DryAt([step], p.pos) + later)
  {
    DryNow(step, p.pos, later);
    if step.Idle? {
      assert [] + rest == rest;
      q := DryStep(parse, p, rest, later);
    } else {
      q := ReadStep(parse, p, step.chunk, rest, later);
    }
  }

  lemma RestBefore(
    carry: seq<Byte>, chunk: seq<Byte>, rest: seq<Byte>, front: seq<Byte>, tail: seq<Byte>
  ) returns (left: seq<Byte>)
    requires carry + (chunk + rest) == front + tail && |carry| + |chunk| <= |front|
    ensures carry + (chunk + left) == front && rest == left + tail
  {
    left := front[|carry| + |chunk|..];
    assert carry + (chunk + rest) == (carry + chunk) + rest;
    assert (carry + chunk) == (front + tail)[..|carry| + |chunk|] == front[..|carry| + |chunk|];
    assert rest == (front + tail)[|carry| + |chunk|..];
  }

  lemma BackTogether(parse: Reader, r: Point, q: Point, u: Unit, b: seq<Unit>, left: seq<Byte>, rest: seq<Byte>)
    requires q == r.(unread := r.unread + [u] + b) && Consistent(parse, r, left) && rest == left + (u.bytes + Encode(b))
    requires IsEscapeKey(u) && AllUnits(parse, b)
    ensures Ahead(parse, q, r.unread, u, b, rest)
  {
    EncodeThree(r.unread, u, b);
    BytesOn(r.carry.Bytes(), left, u.bytes + Encode(b));
    JoinUnits(parse, r.unread, u, b);
    HoldsOn(r.carry, r.unread, [u] + b);
    assert r.unread + [u] + b == r.unread + ([u] + b);
    if r.unread == [] {
      assert r.carry.Bytes() == [];
    }
  }

  lemma BytesOn(x: seq<Byte>, y: seq<Byte>, z: seq<Byte>)
    ensures x + (y + z) == (x + y) + z
  {
  }

  lemma JoinUnits(parse: Reader, a: seq<Unit>, u: Unit, b: seq<Unit>)
    requires AllUnits(parse, a) && IsUnit(parse, u) && AllUnits(parse, b)
    ensures AllUnits(parse, a + [u] + b)
  {
  }

  lemma HoldsOn(carry: Carry, a: seq<Unit>, b: seq<Unit>)
    requires Holds(carry, a)
    ensures Holds(carry, a + b)
  {
  }

  // ----- Steps inside the key

  /** A dry read inside the key that does not let go of it. */
  lemma DryInside(
    parse: Reader, p: Point, a: seq<Unit>, u: Unit, b: seq<Unit>, rest: seq<Byte>
  )
    requires Ahead(parse, p, a, u, b, rest) && p.pos > Begins(p, a)
    requires p.pos - Begins(p, a) < |u.bytes|
    ensures if LetsGo(u.bytes, p.pos - Begins(p, a), Idle)
            then Dry(p.carry) == (Out([], u.bytes[..p.pos - Begins(p, a)], None), EMPTY)
            else Dry(p.carry) == (NOTHING, p.carry)
  {
    HoldsKey(parse, p, a, u, b, rest);
    var n := p.pos - Begins(p, a);
    HeldAs(p.carry, u.bytes, n);
    if n != 2 {
      Waits(u.bytes[..n]);
      if LetsGo(u.bytes, n, Idle) {
        DryOut(parse, u, p.carry);
      }
    }
  }

  /** The beginning of a key is in the key buffer, except that `ESC [` could still become a mouse report. */
  lemma HeldAs(carry: Carry, e: seq<Byte>, n: nat)
    requires 0 < n < |e| && carry.Bytes() == e[..n] && (carry.mouse == [] || carry.key == [])
    requires |carry.mouse| != 1 && (|carry.mouse| > 2 ==> carry.mouse[2] == LESS)
    requires |carry.key| > 1 ==> |carry.key| > 2
    requires |e| > 2 ==> e[2] != LESS
    ensures carry == if n == 2 then Carry(e[..n], []) else Carry([], e[..n])
  {
    assert [] + carry.key == carry.key && carry.mouse + [] == carry.mouse;
  }

  /** Which beginnings a dry read keeps: those with parameters only, and at least one. */
  lemma Waits(key: seq<Byte>)
    requires 0 < |key| <= 18 && key[0] == ESC && (|key| > 1 ==> key[1] == OPEN)
    ensures IncompleteCsiKey(key) <==> |key| > 2 && forall i :: 2 <= i < |key| ==> Parameter(key[i])
  {
  }

  lemma IdleInside(
    parse: Reader, p: Point, a: seq<Unit>, u: Unit, b: seq<Unit>, rest: seq<Byte>, later: set<nat>
  )
    requires Ahead(parse, p, a, u, b, rest) && p.pos > Begins(p, a)
    requires p.pos - Begins(p, a) < |u.bytes| && !LetsGo(u.bytes, p.pos - Begins(p, a), Idle)
    ensures StaysAhead(parse, p, a, u, b, Idle, rest, later, p, a)
  {
    DryInside(parse, p, a, u, b, rest);
    HoldsKey(parse, p, a, u, b, rest);
    ThenNothing(p.delivered);
  }

  /** A read that ends inside the key and holds its beginning. */
  lemma ReadIntoKey(
    parse: Reader, p: Point, a: seq<Unit>, u: Unit, b: seq<Unit>, chunk: seq<Byte>, rest: seq<Byte>, later: set<nat>
  ) returns (q: Point, a': seq<Unit>)
    requires Ahead(parse, p, a, u, b, chunk + rest)
    requires Begins(p, a) < p.pos + |chunk| < Begins(p, a) + |u.bytes|
    requires p.pos + |chunk| - Begins(p, a) <= 18
    requires forall d :: d in later ==> d >= p.pos + |chunk|
    ensures StaysAhead(parse, p, a, u, b, Chunk(chunk), rest, later, q, a')
  {
    var n := p.pos + |chunk| - Begins(p, a);
    var raw := p.carry.mouse + p.carry.key + chunk;
    RawBytes(p.carry, chunk, rest);
    EncodeThree(a, u, b);
    PartsAreUnits(parse, a, u, b);
    CutInside(raw, rest, Encode(a), u.bytes, n, Encode(b));
    ReadsBeginning(parse, p.delivered, a, u, n, p.pos - |p.carry.Bytes()|, later);
    ReadIsReadOnto(parse, p.delivered, p.carry, chunk);
    q := Point(UpTo(p, a, later), Held(u.bytes[..n]).1, [u] + b, p.pos + |chunk|);
    a' := [];
    HeldStays(parse, q, u, b, n, rest);
    NowInside(parse, p, a, u, b, Chunk(chunk), rest, later, q);
  }

  lemma NowInside(
    parse: Reader, p: Point, a: seq<Unit>, u: Unit, b: seq<Unit>, step: Step, rest: seq<Byte>, later: set<nat>, q: Point
  )
    requires |p.carry.Bytes()| <= p.pos && step.Chunk? && Ahead(parse, q, [], u, b, rest)
    requires (q.delivered, q.carry) == (p.delivered.Then(Apply(parse, p.carry, step).0), Apply(parse, p.carry, step).1)
    requires q.pos == p.pos + |step.Bytes()| && Begins(q, []) == Begins(p, a) && q.delivered == UpTo(p, a, later)
    ensures StaysAhead(parse, p, a, u, b, step, rest, later, q, [])
  {
    DryNow(step, p.pos, later);
  }

  lemma ReadsBeginning(parse: Reader, delivered: Out, a: seq<Unit>, u: Unit, n: nat, at: nat, dry: set<nat>)
    requires AllUnits(parse, a + [u]) && 0 < n < |u.bytes| && n <= 18
    requires forall d :: d in dry ==> d >= at + |Encode(a)| + n
    ensures ReadOnto(parse)(delivered, Encode(a) + u.bytes[..n]) ==
            (Deliver(delivered, a, at, dry), Held(u.bytes[..n]).1)
  {
    var us := a + [u];
    assert us[..|a|] == a && us[|a|] == u;
    ReadInside(parse, delivered, us, |a|, n, at, dry);
    ThenNothing(Deliver(delivered, a, at, dry));
  }

  lemma CutInside(raw: seq<Byte>, rest: seq<Byte>, front: seq<Byte>, e: seq<Byte>, n: nat, tail: seq<Byte>)
    requires raw + rest == front + (e + tail) && |raw| == |front| + n && n < |e|
    ensures raw == front + e[..n] && rest == e[n..] + tail
  {
    assert front + (e + tail) == (front + e[..n]) + (e[n..] + tail);
    SameSplit(raw, rest, front + e[..n], e[n..] + tail);
  }

  lemma HeldStays(parse: Reader, q: Point, u: Unit, b: seq<Unit>, n: nat, rest: seq<Byte>)
    requires IsEscapeKey(u) && AllUnits(parse, b) && 0 < n < |u.bytes| && n <= 18 && n <= q.pos
    requires q.carry == Held(u.bytes[..n]).1 && q.unread == [u] + b && rest == u.bytes[n..] + Encode(b)
    ensures Ahead(parse, q, [], u, b, rest) && Begins(q, []) == q.pos - n && Held(u.bytes[..n]).0 == NOTHING
  {
    var us := [u] + b;
    assert us[1..] == b && [] + [u] + b == us;
    assert u.bytes[..n] + rest == Encode(us) by {
      assert u.bytes[..n] + u.bytes[n..] == u.bytes;
    }
    ConsistentHeld(parse, q.delivered, us, n, q.pos - n, rest);
  }

  /** Any step that ends before the key does, and does not let go of it. */
  lemma StepAhead(
    parse: Reader, p: Point, a: seq<Unit>, u: Unit, b: seq<Unit>, step: Step, rest: seq<Byte>, later: set<nat>
  ) returns (q: Point, a': seq<Unit>)
    requires Ahead(parse, p, a, u, b, step.Bytes() + rest)
    requires forall d :: d in later ==> d >= p.pos + |step.Bytes()|
    requires var n := p.pos + |step.Bytes()| - Begins(p, a);
             n < |u.bytes| && (n > 0 ==> !LetsGo(u.bytes, n, step))
    ensures StaysAhead(parse, p, a, u, b, step, rest, later, q, a')
  {
    if p.pos + |step.Bytes()| <= Begins(p, a) {
      q, a' := StepBefore(parse, p, a, u, b, step, rest, later);
    } else if step.Idle? {
      assert [] + rest == rest;
      IdleInside(parse, p, a, u, b, rest, later);
      q, a' := p, a;
    } else {
      q, a' := ReadIntoKey(parse, p, a, u, b, step.chunk, rest, later);
    }
  }

  // ----- The step that ends the key

  lemma {:induction false} KeysGrow(machine: Machine, delivered: Out, carry: Carry, steps: seq<Step>)
    ensures delivered.keys <= Run(machine, delivered, carry, steps).0.keys
    decreases |steps|
  {
    if steps != [] {
      var (out, next) := machine(carry, steps[0]);
      KeysGrow(machine, delivered.Then(out), next, steps[1..]);
    }
  }

  /** A read that goes as far as the end of the key hands over all of it. */
  lemma ReadsKey(
    parse: Reader, p: Point, a: seq<Unit>, u: Unit, b: seq<Unit>, chunk: seq<Byte>, rest: seq<Byte>, later: set<nat>
  )
    requires Ahead(parse, p, a, u, b, chunk + rest)
    requires p.pos + |chunk| >= Begins(p, a) + |u.bytes|
    requires forall d :: d in later ==> d >= p.pos + |chunk|
    ensures UpTo(p, a, later).keys + u.bytes <= p.delivered.Then(Read(parse, p.carry, chunk).0).keys
  {
    var at := p.pos - |p.carry.Bytes()|;
    var raw := p.carry.mouse + p.carry.key + chunk;
    RawBytes(p.carry, chunk, rest);
    EncodeThree(a, u, b);
    var x := Behind(raw, rest, Encode(a) + u.bytes, Encode(b));
    EncodeTwo(a, u);
    PartsAreUnits(parse, a, u, b);
    ReadUnits(parse, p.delivered, a + [u], x, at, later);
    DeliversKey(p.delivered, a, u, at, later);
    ReadIsReadOnto(parse, p.delivered, p.carry, chunk);
  }

  lemma Behind(raw: seq<Byte>, rest: seq<Byte>, front: seq<Byte>, tail: seq<Byte>) returns (x: seq<Byte>)
    requires raw + rest == front + tail && |front| <= |raw|
    ensures raw == front + x
  {
    x := raw[|front|..];
    assert raw[..|front|] == (raw + rest)[..|front|] == (front + tail)[..|front|] == front;
  }

  lemma EncodeTwo(a: seq<Unit>, u: Unit)
    ensures Encode(a + [u]) == Encode(a) + u.bytes
  {
    assert a + [u] + [] == a + [u];
    EncodeThree(a, u, []);
    assert u.bytes + Encode([]) == u.bytes;
  }

  lemma DeliversKey(delivered: Out, a: seq<Unit>, u: Unit, at: nat, dry: set<nat>)
    requires IsEscapeKey(u)
    ensures Deliver(delivered, a + [u], at, dry).keys == Deliver(delivered, a, at, dry).keys + u.bytes
  {
    DeliverConcat(delivered, a, [u], at, dry);
    assert [u][1..] == [];
  }

  // ----- Whole runs

  /** Where a run stands towards the key, as a value, so that a run needs no more than what a step keeps. */
  type Stage = (Point, seq<Unit>, seq<Byte>) -> bool

  ghost function Towards(parse: Reader, u: Unit, b: seq<Unit>): Stage {
    (p: Point, a: seq<Unit>, rest: seq<Byte>) => Ahead(parse, p, a, u, b, rest)
  }

  ghost predicate Moves(
    stage: Stage, result: (Out, Carry), p: Point, a: seq<Unit>, step: Step, rest: seq<Byte>, later: set<nat>,
    q: Point, a': seq<Unit>
  ) {
    && |p.carry.Bytes()| <= p.pos && |q.carry.Bytes()| <= q.pos
    && (q.delivered, q.carry) == (p.delivered.Then(result.0), result.1) && q.pos == p.pos + |step.Bytes()|
    && stage(q, a', rest)
    && Begins(q, a') == Begins(p, a) && UpTo(q, a', later) == UpTo(p, a, DryAt([step], p.pos) + later)
  }

  /** What a step does: it stays before the end of the key, lets go of its beginning, or hands it over whole. */
  ghost predicate Minds(
    stage: Stage, machine: Machine, e: seq<Byte>, p: Point, a: seq<Unit>, step: Step, rest: seq<Byte>, later: set<nat>
  ) {
    stage(p, a, step.Bytes() + rest) && (forall d :: d in later ==> d >= p.pos + |step.Bytes()|) ==>
      && |p.carry.Bytes()| <= p.pos
      && var result, end := machine(p.carry, step), p.pos + |step.Bytes()|;
         if end >= Begins(p, a) + |e| then
           step.Chunk? ==> UpTo(p, a, DryAt([step], p.pos) + later).keys + e <= p.delivered.Then(result.0).keys
         else if end > Begins(p, a) && LetsGo(e, end - Begins(p, a), step) then
           p.delivered.Then(result.0).keys ==
             UpTo(p, a, DryAt([step], p.pos) + later).keys + e[..end - Begins(p, a)]
         else exists q, a' :: Moves(stage, result, p, a, step, rest, later, q, a')
  }

  ghost predicate Careful(stage: Stage, machine: Machine, e: seq<Byte>) {
    forall p, a, step, rest, later :: Minds(stage, machine, e, p, a, step, rest, later)
  }

  /** Nothing of the key `e` was handed over, or all of it, behind the keys `before` it. */
  ghost predicate NoneOrAll(before: seq<Byte>, e: seq<Byte>, keys: seq<Byte>) {
    |keys| <= |before| || before + e <= keys
  }

  lemma DryLater(steps: seq<Step>, pos: nat)
    requires steps != []
    ensures DryAt(steps, pos) == DryAt([steps[0]], pos) + DryAt(steps[1..], pos + |steps[0].Bytes()|)
  {
    assert [steps[0]][1..] == [];
  }

  lemma RunStep(machine: Machine, delivered: Out, carry: Carry, steps: seq<Step>, i: nat)
    requires 0 < i <= |steps|
    ensures var (out, next) := machine(carry, steps[0]);
            Run(machine, delivered, carry, steps[..i]) == Run(machine, delivered.Then(out), next, steps[1..][..i - 1])
  {
    assert steps[..i][1..] == steps[1..][..i - 1];
  }

  lemma NotBroken(e: seq<Byte>, off: nat, pos: nat, steps: seq<Step>)
    requires steps != [] && !BreaksUp(e, off, pos, steps)
    ensures var end := pos + |steps[0].Bytes()|;
            && (off < end < off + |e| ==> !LetsGo(e, end - off, steps[0]))
            && !BreaksUp(e, off, end, steps[1..])
  {
  }

  /** Unless a step breaks the key up, no run stops inside it. */
  lemma {:induction false} StaysWhole(
    stage: Stage, machine: Machine, e: seq<Byte>, p: Point, a: seq<Unit>, steps: seq<Step>, rest: seq<Byte>, i: nat
  )
    requires Careful(stage, machine, e) && stage(p, a, Input(steps) + rest) && |p.carry.Bytes()| <= p.pos
    requires p.pos < Begins(p, a) + |e| && !BreaksUp(e, Begins(p, a), p.pos, steps) && i <= |steps|
    ensures NoneOrAll(UpTo(p, a, DryAt(steps, p.pos)).keys, e, Run(machine, p.delivered, p.carry, steps[..i]).0.keys)
    decreases |steps|
  {
    if i == 0 {
      DeliverGrows(p.delivered, a, p.pos - |p.carry.Bytes()|, DryAt(steps, p.pos));
    } else {
      RunStep(machine, p.delivered, p.carry, steps, i);
      var step, tail := steps[0], Input(steps[1..]) + rest;
      var later := DryAt(steps[1..], p.pos + |step.Bytes()|);
      InputFirst(steps, rest);
      DryLater(steps, p.pos);
      NotBroken(e, Begins(p, a), p.pos, steps);
      assert Minds(stage, machine, e, p, a, step, tail, later);
      var result := machine(p.carry, step);
      if p.pos + |step.Bytes()| < Begins(p, a) + |e| {
        var q, a' :| Moves(stage, result, p, a, step, tail, later, q, a');
        StaysWhole(stage, machine, e, q, a', steps[1..], rest, i - 1);
      } else {
        assert step.Chunk?;
        KeysGrow(machine, p.delivered.Then(result.0), result.1, steps[1..][..i - 1]);
      }
    }
  }

  /** A step that breaks the key up leaves the run inside it. */
  lemma {:induction false} StopsInside(
    stage: Stage, machine: Machine, e: seq<Byte>, p: Point, a: seq<Unit>, steps: seq<Step>, rest: seq<Byte>
  ) returns (i: nat)
    requires Careful(stage, machine, e) && stage(p, a, Input(steps) + rest) && |p.carry.Bytes()| <= p.pos
    requires p.pos < Begins(p, a) + |e| && BreaksUp(e, Begins(p, a), p.pos, steps)
    ensures i <= |steps|
    ensures var keys := Run(machine, p.delivered, p.carry, steps[..i]).0.keys;
            var before := UpTo(p, a, DryAt(steps, p.pos)).keys;
            |before| < |keys| < |before| + |e| && before <= keys
    decreases |steps|
  {
    var step, tail := steps[0], Input(steps[1..]) + rest;
    var later := DryAt(steps[1..], p.pos + |step.Bytes()|);
    InputFirst(steps, rest);
    DryLater(steps, p.pos);
    assert Minds(stage, machine, e, p, a, step, tail, later);
    var result, end := machine(p.carry, step), p.pos + |step.Bytes()|;
    if Begins(p, a) < end < Begins(p, a) + |e| && LetsGo(e, end - Begins(p, a), step) {
      i := 1;
      assert steps[..1][1..] == [];
    } else {
      if end >= Begins(p, a) + |e| {
        OverIsOver(e, Begins(p, a), end, steps[1..]);
      }
      var q, a' :| Moves(stage, result, p, a, step, tail, later, q, a');
      var k := StopsInside(stage, machine, e, q, a', steps[1..], rest);
      i := k + 1;
      assert steps[..i][1..] == steps[1..][..k];
    }
  }

  /** Behind the key nothing can break it up. */
  lemma {:induction false} OverIsOver(e: seq<Byte>, off: nat, pos: nat, steps: seq<Step>)
    requires pos >= off + |e|
    ensures !BreaksUp(e, off, pos, steps)
    decreases |steps|
  {
    if steps != [] {
      OverIsOver(e, off, pos + |steps[0].Bytes()|, steps[1..]);
    }
  }

  lemma {:induction false} DeliverGrows(delivered: Out, us: seq<Unit>, at: nat, dry: set<nat>)
    ensures delivered.keys <= Deliver(delivered, us, at, dry).keys
    decreases |us|
  {
    if us != [] {
      DeliverGrows(delivered.Then(us[0].Delivered(at + 1 in dry)), us[1..], at + |us[0].bytes|, dry);
    }
  }

  // ----- The decoder

  lemma DecodingMinds(
    parse: Reader, u: Unit, b: seq<Unit>, p: Point, a: seq<Unit>, step: Step, rest: seq<Byte>, later: set<nat>
  )
    ensures Minds(Towards(parse, u, b), Decoding(parse), u.bytes, p, a, step, rest, later)
  {
    if Ahead(parse, p, a, u, b, step.Bytes() + rest) && (forall d :: d in later ==> d >= p.pos + |step.Bytes()|) {
      var end := p.pos + |step.Bytes()|;
      DryNow(step, p.pos, later);
      if end >= Begins(p, a) + |u.bytes| {
        if step.Chunk? {
          ReadsKey(parse, p, a, u, b, step.chunk, rest, later);
        }
      } else if end > Begins(p, a) && LetsGo(u.bytes, end - Begins(p, a), step) {
        Released(parse, p, a, u, b, step, rest, later);
      } else {
        var q, a' := StepAhead(parse, p, a, u, b, step, rest, later);
        AheadMoves(parse, p, a, u, b, step, rest, later, q, a');
      }
    }
  }

  lemma AheadMoves(
    parse: Reader, p: Point, a: seq<Unit>, u: Unit, b: seq<Unit>, step: Step, rest: seq<Byte>, later: set<nat>,
    q: Point, a': seq<Unit>
  )
    requires |p.carry.Bytes()| <= p.pos && StaysAhead(parse, p, a, u, b, step, rest, later, q, a')
    ensures Moves(Towards(parse, u, b), Decoding(parse)(p.carry, step), p, a, step, rest, later, q, a')
  {
  }

  /** The step that breaks the key up hands over what was read of it. */
  lemma Released(
    parse: Reader, p: Point, a: seq<Unit>, u: Unit, b: seq<Unit>, step: Step, rest: seq<Byte>, later: set<nat>
  )
    requires Ahead(parse, p, a, u, b, step.Bytes() + rest)
    requires forall d :: d in later ==> d >= p.pos + |step.Bytes()|
    requires Begins(p, a) < p.pos + |step.Bytes()| < Begins(p, a) + |u.bytes|
    requires LetsGo(u.bytes, p.pos + |step.Bytes()| - Begins(p, a), step)
    ensures p.delivered.Then(Apply(parse, p.carry, step).0).keys ==
            UpTo(p, a, DryAt([step], p.pos) + later).keys + u.bytes[..p.pos + |step.Bytes()| - Begins(p, a)]
  {
    DryNow(step, p.pos, later);
    if step.Idle? {
      assert [] + rest == rest;
      DryInside(parse, p, a, u, b, rest);
      HoldsKey(parse, p, a, u, b, rest);
    } else {
      ReleasedByRead(parse, p, a, u, b, step.chunk, rest, later);
    }
  }

  lemma ReleasedByRead(
    parse: Reader, p: Point, a: seq<Unit>, u: Unit, b: seq<Unit>, chunk: seq<Byte>, rest: seq<Byte>, later: set<nat>
  )
    requires Ahead(parse, p, a, u, b, chunk + rest)
    requires forall d :: d in later ==> d >= p.pos + |chunk|
    requires Begins(p, a) + 18 < p.pos + |chunk| < Begins(p, a) + |u.bytes|
    ensures p.delivered.Then(Read(parse, p.carry, chunk).0).keys ==
            UpTo(p, a, later).keys + u.bytes[..p.pos + |chunk| - Begins(p, a)]
  {
    var n := p.pos + |chunk| - Begins(p, a);
    RawBytes(p.carry, chunk, rest);
    EncodeThree(a, u, b);
    PartsAreUnits(parse, a, u, b);
    CutInside(p.carry.mouse + p.carry.key + chunk, rest, Encode(a), u.bytes, n, Encode(b));
    ReadsOverlong(parse, p.delivered, a, u, n, p.pos - |p.carry.Bytes()|, later);
    ReadIsReadOnto(parse, p.delivered, p.carry, chunk);
  }

  lemma ReadsOverlong(parse: Reader, delivered: Out, a: seq<Unit>, u: Unit, n: nat, at: nat, dry: set<nat>)
    requires AllUnits(parse, a + [u]) && IsEscapeKey(u) && 18 < n < |u.bytes|
    requires forall d :: d in dry ==> d >= at + |Encode(a)| + n
    ensures ReadOnto(parse)(delivered, Encode(a) + u.bytes[..n]).0.keys ==
            Deliver(delivered, a, at, dry).keys + u.bytes[..n]
  {
    var us := a + [u];
    assert us[..|a|] == a && us[|a|] == u;
    ReadInside(parse, delivered, us, |a|, n, at, dry);
    HeldIsBeginning(u.bytes[..n]);
  }

  lemma DecodingIsCareful(parse: Reader, u: Unit, b: seq<Unit>)
    ensures Careful(Towards(parse, u, b), Decoding(parse), u.bytes)
  {
    forall p, a, step, rest, later
      ensures Minds(Towards(parse, u, b), Decoding(parse), u.bytes, p, a, step, rest, later)
    {
      DecodingMinds(parse, u, b, p, a, step, rest, later);
    }
  }

  /** At every moment of a run, nothing of the key was handed over, or all of it, behind the keys `before` it. */
  ghost predicate InOnePiece(before: seq<Byte>, e: seq<Byte>, machine: Machine, steps: seq<Step>) {
    forall i :: 0 <= i <= |steps| ==> NoneOrAll(before, e, Run(machine, NOTHING, EMPTY, steps[..i]).0.keys)
  }

  lemma OnePiece(stage: Stage, machine: Machine, e: seq<Byte>, p: Point, a: seq<Unit>, steps: seq<Step>)
    requires Careful(stage, machine, e) && stage(p, a, Input(steps) + []) && |p.carry.Bytes()| <= p.pos
    requires p.pos < Begins(p, a) + |e| && !BreaksUp(e, Begins(p, a), p.pos, steps)
    requires p.delivered == NOTHING && p.carry == EMPTY
    ensures InOnePiece(UpTo(p, a, DryAt(steps, p.pos)).keys, e, machine, steps)
  {
    var before := UpTo(p, a, DryAt(steps, p.pos)).keys;
    forall i | 0 <= i <= |steps| ensures NoneOrAll(before, e, Run(machine, NOTHING, EMPTY, steps[..i]).0.keys) {
      StaysWhole(stage, machine, e, p, a, steps, [], i);
    }
  }

  lemma InPieces(before: seq<Byte>, e: seq<Byte>, machine: Machine, steps: seq<Step>, i: nat)
    requires i <= |steps|
    requires |before| < |Run(machine, NOTHING, EMPTY, steps[..i]).0.keys| < |before| + |e|
    ensures !InOnePiece(before, e, machine, steps)
  {
    assert !NoneOrAll(before, e, Run(machine, NOTHING, EMPTY, steps[..i]).0.keys);
  }

  lemma OnePieceExactly(stage: Stage, machine: Machine, e: seq<Byte>, p: Point, a: seq<Unit>, steps: seq<Step>)
    requires Careful(stage, machine, e) && stage(p, a, Input(steps)) && e != []
    requires p.delivered == NOTHING && p.carry == EMPTY && p.pos == 0
    ensures InOnePiece(Deliver(NOTHING, a, 0, DryAt(steps, 0)).keys, e, machine, steps) <==>
            !BreaksUp(e, |Encode(a)|, 0, steps)
  {
    assert Input(steps) + [] == Input(steps);
    if BreaksUp(e, |Encode(a)|, 0, steps) {
      var i := StopsInside(stage, machine, e, p, a, steps, []);
      InPieces(Deliver(NOTHING, a, 0, DryAt(steps, 0)).keys, e, machine, steps, i);
    } else {
      OnePiece(stage, machine, e, p, a, steps);
    }
  }

  // ----- Tokens

  /** A key that is more than one byte: ESC with a character, or a CSI key that is not a focus report. */
  predicate EscapeKey(t: Token) { t.Escaped? || (t.CsiKey? && !t.IsFocus()) }

  /** The keys of the tokens before token `j`, with reports that dry reads tore delivered as keys. */
  ghost function KeysBefore(ts: seq<Token>, j: nat, steps: seq<Step>): seq<Byte>
    requires j <= |ts|
  {
    Deliver(NOTHING, Units(ts[..j]), 0, DryAt(steps, 0)).keys
  }

  ghost predicate ArrivesWhole(ts: seq<Token>, j: nat, steps: seq<Step>)
    requires j < |ts|
  {
    InOnePiece(KeysBefore(ts, j, steps), ts[j].Print(), Decoding(ParseSgrMouse), steps)
  }

  lemma EscapeKeyIsUnit(t: Token)
    requires t.WellFormed() && EscapeKey(t)
    ensures IsEscapeKey(Unit(t.Print(), t.Meaning()))
  {
    KeyIsUnit(t);
    if t.CsiKey? && t.params != [] {
      assert t.Print()[2] == t.params[0];
    }
  }

  lemma SplitTokens(ts: seq<Token>, j: nat) returns (a: seq<Unit>, u: Unit, b: seq<Unit>)
    requires AllWellFormed(ts) && j < |ts| && EscapeKey(ts[j])
    ensures a == Units(ts[..j]) && u == Unit(ts[j].Print(), ts[j].Meaning()) && Units(ts) == a + [u] + b
    ensures IsEscapeKey(u)
  {
    a, u, b := Units(ts[..j]), Unit(ts[j].Print(), ts[j].Meaning()), Units(ts[j + 1..]);
    EscapeKeyIsUnit(ts[j]);
    UnitsThree(ts[..j], ts[j], ts[j + 1..]);
    AllThree(ts, j);
  }

  lemma AllThree<T>(s: seq<T>, j: nat)
    requires j < |s|
    ensures s[..j] + [s[j]] + s[j + 1..] == s
  {
  }

  lemma AtStart(ts: seq<Token>, j: nat, a: seq<Unit>, u: Unit, b: seq<Unit>)
    requires AllWellFormed(ts) && Units(ts) == a + [u] + b && IsEscapeKey(u)
    ensures var p := Point(NOTHING, EMPTY, Units(ts), 0);
            Ahead(ParseSgrMouse, p, a, u, b, Print(ts)) && Begins(p, a) == |Encode(a)|
  {
    TokensAreUnits(ts);
    ConsistentEmpty(ParseSgrMouse, NOTHING, Units(ts), 0);
  }

  /**
   Exactly when an escape key arrives in one piece: in a run over printed tokens, with any cuts and dry reads,
   the keys handed over never end inside it if and only if no step that ends inside it lets go of its beginning:
   a dry read behind a lone ESC, or behind something other than parameters, or any step beyond the sixteen
   parameters the client waits for.
   */
  lemma WholeExactlyWhen(ts: seq<Token>, j: nat, steps: seq<Step>)
    requires AllWellFormed(ts) && Input(steps) == Print(ts) && j < |ts| && EscapeKey(ts[j])
    ensures ArrivesWhole(ts, j, steps) <==>
            !BreaksUp(ts[j].Print(), |Print(ts[..j])|, 0, steps)
  {
    var a, u, b := SplitTokens(ts, j);
    var p := Point(NOTHING, EMPTY, Units(ts), 0);
    AtStart(ts, j, a, u, b);
    DecodingIsCareful(ParseSgrMouse, u, b);
    OnePieceExactly(Towards(ParseSgrMouse, u, b), Decoding(ParseSgrMouse), u.bytes, p, a, steps);
  }

  lemma {:induction false} OnlyLoneEscape(e: seq<Byte>, off: nat, pos: nat, steps: seq<Step>)
    requires |e| <= 19 && forall i :: 2 <= i < |e| - 1 ==> Parameter(e[i])
    ensures BreaksUp(e, off, pos, steps) <==> |e| > 1 && off + 1 in DryAt(steps, pos)
    decreases |steps|
  {
    if steps != [] {
      OnlyLoneEscape(e, off, pos + |steps[0].Bytes()|, steps[1..]);
    }
  }

  /**
   So a CSI key whose parameters are at most sixteen digits and separators is handed over by one step, however
   its bytes are cut and wherever the descriptor runs dry, exactly if it does not run dry right behind its ESC.
   */
  lemma CsiKeyIsOneKey(ts: seq<Token>, j: nat, steps: seq<Step>)
    requires AllWellFormed(ts) && Input(steps) == Print(ts) && j < |ts| && ts[j].CsiKey? && !ts[j].IsFocus()
    requires |ts[j].params| <= 16 && forall i :: 0 <= i < |ts[j].params| ==> Parameter(ts[j].params[i])
    ensures ArrivesWhole(ts, j, steps) <==>
            |Print(ts[..j])| + 1 !in DryAt(steps, 0)
  {
    CsiShape(ts[j]);
    WholeExactlyWhen(ts, j, steps);
    OnlyLoneEscape(ts[j].Print(), |Print(ts[..j])|, 0, steps);
  }

  lemma CsiShape(t: Token)
    requires t.CsiKey?
    ensures |t.Print()| == |t.params| + 3 && forall i :: 2 <= i < |t.Print()| - 1 ==> t.Print()[i] == t.params[i - 2]
  {
  }
}
