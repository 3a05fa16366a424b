/** Reads cut at arbitrary bytes: the carry is always the unread beginning of one unit. */
module StdinFragments {
  import opened Bytes
  import opened SgrMouse
  import opened StdinScan
  import opened StdinUnits

  /** The carry is the unread beginning of the next unit, in at most one of the buffers. */
  ghost predicate Holds(carry: Carry, unread: seq<Unit>) {
    && (carry.mouse == [] || carry.key == [])
    && (carry.Bytes() != [] ==> unread != [] && StrictPrefix(carry.Bytes(), unread[0].bytes))
    && |carry.mouse| != 1 && (|carry.mouse| > 2 ==> carry.mouse[2] == LESS)
    && (|carry.key| > 1 ==> |carry.key| > 2 && carry.key[2] != LESS)
  }

  predicate StrictPrefix(p: seq<Byte>, e: seq<Byte>) { p <= e && |p| < |e| }

  // ----- What a read does with the beginning of a unit

  /** Where the beginning `p` of an escape sequence goes: a carry buffer, or out if it is too long. */
  function Held(p: seq<Byte>): (Out, Carry) {
    if |p| >= 2 && (|p| == 2 || p[2] == LESS) then (NOTHING, Carry(p, []))
    else if |p| <= 18 then (NOTHING, Carry([], p))
    else (Out([], p, None), EMPTY)
  }

  lemma BeginningShape(parse: Reader, u: Unit, p: seq<Byte>)
    requires IsUnit(parse, u) && p != [] && StrictPrefix(p, u.bytes)
    ensures p[0] == ESC && ESC !in p[1..]
    ensures |p| >= 2 ==> p[1] == OPEN
    ensures |p| >= 3 && p[2] != LESS ==> IsKey(u) && forall i :: 2 <= i < |p| ==> !IsFinal(p[i])
    ensures |p| >= 3 && p[2] == LESS ==> forall i :: 3 <= i < |p| ==> !IsTerminator(p[i])
  {
    assert p == u.bytes[..|p|];
    assert p[1..] == u.bytes[1..][..|p| - 1];
    assert |u.bytes| >= 3 && |p| >= 3 ==> p[2] == u.bytes[2];
  }

  lemma SettleEscape(parse: Reader)
    ensures Settle(Scan(parse, [ESC])) == Held([ESC])
  {
    var p: seq<Byte> := [ESC];
    assert Scan(parse, p[1..]) == MouseScan([], [], []);
    assert Scan(parse, p) == MouseScan([], p, []);
    assert PartialEscape(p) == p && Settled(p) == [];
  }

  lemma SettleMouseStart(parse: Reader, p: seq<Byte>)
    requires |p| >= 2 && p[0] == ESC && p[1] == OPEN && (|p| == 2 || p[2] == LESS)
    requires forall i :: 3 <= i < |p| ==> !IsTerminator(p[i])
    ensures Settle(Scan(parse, p)) == Held(p)
  {
    if |p| > 2 {
      assert FirstIndex(p[3..], IsTerminator) == |p| - 3;
    }
    assert Scan(parse, p) == MouseScan([], [], p);
    assert PartialEscape([]) == [] && Settled([]) == [];
  }

  lemma ScanKeyStart(parse: Reader, p: seq<Byte>)
    requires |p| >= 3 && p[0] == ESC && p[1] == OPEN && p[2] != LESS && ESC !in p[1..]
    ensures Scan(parse, p) == MouseScan([], p, [])
  {
    assert p + [] == p;
    ScanKey(parse, p, []);
    assert Scan(parse, []) == MouseScan([], [], []);
  }

  lemma PartialKeyStart(p: seq<Byte>)
    requires |p| >= 3 && p[0] == ESC && p[1] == OPEN && ESC !in p[1..]
    requires forall i :: 2 <= i < |p| ==> !IsFinal(p[i])
    ensures PartialEscape(p) == if |p| <= 18 then p else []
  {
    assert Unfinished(p[1..]) <==> |p| <= 18;
  }

  lemma SettlePass(p: seq<Byte>)
    requires |p| >= 3 && p[2] != LESS
    requires PartialEscape(p) == if |p| <= 18 then p else []
    requires StripFocus(p) == Focus(None, p)
    ensures Settle(MouseScan([], p, [])) == Held(p)
  {
    assert Settled(p) == if |p| <= 18 then [] else p;
    assert StripFocus([]) == Focus(None, []);
  }

  lemma SettleKeyStart(parse: Reader, p: seq<Byte>)
    requires |p| >= 3 && p[0] == ESC && p[1] == OPEN && p[2] != LESS && ESC !in p[1..]
    requires forall i :: 2 <= i < |p| ==> !IsFinal(p[i])
    ensures Settle(Scan(parse, p)) == Held(p)
  {
    ScanKeyStart(parse, p);
    PartialKeyStart(p);
    StripKeyStart(p);
    SettlePass(p);
  }

  lemma StripKeyStart(p: seq<Byte>)
    requires |p| >= 3 && p[0] == ESC && ESC !in p[1..] && !IsFocusReport(p)
    ensures StripFocus(p) == Focus(None, p)
  {
    assert p + [] == p;
    StripEscape(p, []);
    assert StripFocus([]) == Focus(None, []);
  }

  /** A read that ends inside a unit holds what it saw of it, or releases an overlong key. */
  lemma SettleBeginning(parse: Reader, u: Unit, p: seq<Byte>)
    requires IsUnit(parse, u) && p != [] && StrictPrefix(p, u.bytes)
    ensures Settle(Scan(parse, p)) == Held(p)
  {
    BeginningShape(parse, u, p);
    if |p| == 1 {
      assert p == [ESC];
      SettleEscape(parse);
    } else if |p| == 2 || p[2] == LESS {
      SettleMouseStart(parse, p);
    } else {
      SettleKeyStart(parse, p);
    }
  }

  lemma SettleNothing(parse: Reader)
    ensures Settle(Scan(parse, [])) == (NOTHING, EMPTY)
  {
    assert PartialEscape([]) == [] && Settled([]) == [];
  }

  // ----- Cutting a stream of units

  lemma {:induction false} Cut(us: seq<Unit>, n: nat) returns (k: nat)
    requires n <= |Encode(us)|
    ensures k <= |us| && |Encode(us[..k])| <= n
    ensures n == |Encode(us[..k])| || (k < |us| && n < |Encode(us[..k])| + |us[k].bytes|)
  {
    if us == [] || n < |us[0].bytes| {
      k := 0;
    } else {
      var m := Cut(us[1..], n - |us[0].bytes|);
      k := m + 1;
      assert us[..k][1..] == us[1..][..m];
    }
  }

  lemma CutBytes(us: seq<Unit>, k: nat)
    requires k <= |us|
    ensures Encode(us) == Encode(us[..k]) + Encode(us[k..])
  {
    assert us == us[..k] + us[k..];
    EncodeConcat(us[..k], us[k..]);
  }

  /** Part of a unit has been delivered as keys: the rest of it now reads as text. */
  lemma Release(parse: Reader, delivered: Out, us: seq<Unit>, n: nat, at: nat, dry: set<nat>)
    requires AllUnits(parse, us) && us != [] && 0 < n < |us[0].bytes|
    requires us[0].Delivered(at + 1 in dry) == Out([], us[0].bytes, None)
    ensures var unread := Texts(us[0].bytes[n..]) + us[1..];
            && AllUnits(parse, unread)
            && us[0].bytes[..n] + Encode(unread) == Encode(us)
            && Deliver(delivered, us, at, dry) ==
               Deliver(delivered.Then(Out([], us[0].bytes[..n], None)), unread, at + n, dry)
  {
    var head, tail := us[0].bytes[..n], us[0].bytes[n..];
    assert us[0].bytes == head + tail;
    ReleasedUnits(parse, us, n);
    ReleaseEncodes(us, n);
    ReleaseDelivers(delivered, us, head, tail, at, dry);
  }

  lemma ReleasedUnits(parse: Reader, us: seq<Unit>, n: nat)
    requires AllUnits(parse, us) && us != [] && 0 < n < |us[0].bytes|
    ensures AllUnits(parse, Texts(us[0].bytes[n..]) + us[1..])
  {
    TailIsText(parse, us[0], n);
    TextsAreUnits(parse, us[0].bytes[n..]);
  }

  lemma ReleaseEncodes(us: seq<Unit>, n: nat)
    requires us != [] && n <= |us[0].bytes|
    ensures us[0].bytes[..n] + Encode(Texts(us[0].bytes[n..]) + us[1..]) == Encode(us)
  {
    var e, tail := us[0].bytes, us[0].bytes[n..];
    TextsEncode(tail);
    EncodeConcat(Texts(tail), us[1..]);
    Rejoin(e, n, Encode(us[1..]));
  }

  lemma Rejoin(e: seq<Byte>, n: nat, rest: seq<Byte>)
    requires n <= |e|
    ensures e[..n] + (e[n..] + rest) == e + rest
  {
    assert e[..n] + e[n..] == e;
  }

  lemma TailIsText(parse: Reader, u: Unit, n: nat)
    requires IsUnit(parse, u) && 0 < n <= |u.bytes|
    ensures ESC !in u.bytes[n..]
  {
    assert ESC !in u.bytes[1..];
    assert u.bytes[n..] == u.bytes[1..][n - 1..];
  }

  lemma ReleaseDelivers(delivered: Out, us: seq<Unit>, head: seq<Byte>, tail: seq<Byte>, at: nat, dry: set<nat>)
    requires us != [] && us[0].bytes == head + tail
    requires us[0].Delivered(at + 1 in dry) == Out([], head + tail, None)
    ensures Deliver(delivered, us, at, dry) ==
            Deliver(delivered.Then(Out([], head, None)), Texts(tail) + us[1..], at + |head|, dry)
  {
    var released := delivered.Then(Out([], head, None));
    DeliverConcat(released, Texts(tail), us[1..], at + |head|, dry);
    TextsDeliver(released, tail, at + |head|, dry);
    TextsEncode(tail);
    ThenAssociates(delivered, Out([], head, None), Out([], tail, None));
  }

  // ----- One step of a run

  /** A read cut inside the unit after `k` complete ones. */
  lemma ReadInside(parse: Reader, delivered: Out, us: seq<Unit>, k: nat, n: nat, at: nat, dry: set<nat>)
    requires AllUnits(parse, us) && k < |us| && 0 < n < |us[k].bytes|
    requires forall d :: d in dry ==> d >= at + |Encode(us[..k])| + n
    ensures var p := us[k].bytes[..n];
            ReadOnto(parse)(delivered, Encode(us[..k]) + p) ==
            (Deliver(delivered, us[..k], at, dry).Then(Held(p).0), Held(p).1)
  {
    var p := us[k].bytes[..n];
    ReadUnits(parse, delivered, us[..k], p, at, dry);
    SettleBeginning(parse, us[k], p);
  }

  lemma ReadBetween(parse: Reader, delivered: Out, us: seq<Unit>, at: nat, dry: set<nat>)
    requires AllUnits(parse, us)
    requires forall d :: d in dry ==> d >= at + |Encode(us)|
    ensures ReadOnto(parse)(delivered, Encode(us)) == (Deliver(delivered, us, at, dry), EMPTY)
  {
    ReadUnits(parse, delivered, us, [], at, dry);
    assert Encode(us) + [] == Encode(us);
    SettleNothing(parse);
    ThenNothing(Deliver(delivered, us, at, dry));
  }

  lemma ThenNothing(a: Out)
    ensures a.Then(NOTHING) == a
  {
    assert a.events + [] == a.events && a.keys + [] == a.keys;
  }

  /** A point of a run: what was delivered, the carry, the units still unread and the bytes read. */
  datatype Point = Point(delivered: Out, carry: Carry, unread: seq<Unit>, pos: nat)

  /** The carry and the bytes still to come are exactly the unread units. */
  ghost predicate Consistent(parse: Reader, p: Point, rest: seq<Byte>) {
    && |p.carry.Bytes()| <= p.pos
    && AllUnits(parse, p.unread)
    && Holds(p.carry, p.unread)
    && p.carry.Bytes() + rest == Encode(p.unread)
  }

  /** What will have been delivered once the unread units are read, with `dry` reads still to come. */
  ghost function Total(p: Point, dry: set<nat>): Out
    requires |p.carry.Bytes()| <= p.pos
  {
    Deliver(p.delivered, p.unread, p.pos - |p.carry.Bytes()|, dry)
  }

  // ----- Reads

  lemma DeliverFrom(delivered: Out, us: seq<Unit>, k: nat, at: nat, dry: set<nat>)
    requires k <= |us|
    ensures Deliver(delivered, us, at, dry) ==
            Deliver(Deliver(delivered, us[..k], at, dry), us[k..], at + |Encode(us[..k])|, dry)
  {
    assert us == us[..k] + us[k..];
    DeliverConcat(delivered, us[..k], us[k..], at, dry);
  }

  lemma EncodeFrom(us: seq<Unit>, k: nat, n: nat)
    requires k < |us| && n <= |us[k].bytes|
    ensures us[k].bytes[..n] + (us[k].bytes[n..] + Encode(us[k + 1..])) == Encode(us[k..])
  {
    assert us[k..][1..] == us[k + 1..];
    assert us[k].bytes[..n] + us[k].bytes[n..] == us[k].bytes;
  }

  lemma HoldsNothing(unread: seq<Unit>)
    ensures Holds(EMPTY, unread) && EMPTY.Bytes() == []
  {
  }

  lemma HeldIsBeginning(p: seq<Byte>)
    requires p != []
    ensures Held(p).1.Bytes() == (if Held(p).0 == NOTHING then p else [])
    ensures Held(p).0 == NOTHING || (Held(p) == (Out([], p, None), EMPTY) && |p| > 18 && p[2] != LESS)
    ensures |Held(p).1.mouse| != 1 && (|Held(p).1.mouse| > 2 ==> Held(p).1.mouse[2] == LESS)
    ensures Held(p).1.mouse == [] || Held(p).1.key == []
    ensures |Held(p).1.key| > 1 ==> |Held(p).1.key| > 2 && Held(p).1.key[2] != LESS
  {
    assert p + [] == p && [] + p == p;
  }

  /** The point after a read that ends between two units. */
  lemma PointAtBoundary(parse: Reader, delivered: Out, us: seq<Unit>, k: nat, at: nat, dry: set<nat>) returns (q: Point)
    requires AllUnits(parse, us) && k <= |us|
    ensures q == Point(Deliver(delivered, us[..k], at, dry), EMPTY, us[k..], at + |Encode(us[..k])|)
    ensures Consistent(parse, q, Encode(us[k..])) && Total(q, dry) == Deliver(delivered, us, at, dry)
  {
    q := Point(Deliver(delivered, us[..k], at, dry), EMPTY, us[k..], at + |Encode(us[..k])|);
    DeliverFrom(delivered, us, k, at, dry);
    ConsistentEmpty(parse, Deliver(delivered, us[..k], at, dry), us[k..], at + |Encode(us[..k])|);
  }

  lemma ConsistentEmpty(parse: Reader, delivered: Out, unread: seq<Unit>, pos: nat)
    requires AllUnits(parse, unread)
    ensures Consistent(parse, Point(delivered, EMPTY, unread, pos), Encode(unread))
  {
    HoldsNothing(unread);
    assert [] + Encode(unread) == Encode(unread);
  }

  /** The point after a read that ends inside a unit whose beginning is held. */
  lemma PointInHeld(parse: Reader, delivered: Out, us: seq<Unit>, k: nat, n: nat, at: nat, dry: set<nat>)
    requires AllUnits(parse, us) && k < |us| && 0 < n < |us[k].bytes|
    requires Held(us[k].bytes[..n]).0 == NOTHING
    ensures var q := Point(Deliver(delivered, us[..k], at, dry), Held(us[k].bytes[..n]).1, us[k..],
            at + |Encode(us[..k])| + n);
            && Consistent(parse, q, us[k].bytes[n..] + Encode(us[k + 1..]))
            && Total(q, dry) == Deliver(delivered, us, at, dry)
  {
    DeliverFrom(delivered, us, k, at, dry);
    EncodeFrom(us, k, n);
    ConsistentHeld(parse, Deliver(delivered, us[..k], at, dry), us[k..], n, at + |Encode(us[..k])|,
                   us[k].bytes[n..] + Encode(us[k + 1..]));
  }

  lemma ConsistentHeld(parse: Reader, delivered: Out, us: seq<Unit>, n: nat, at: nat, rest: seq<Byte>)
    requires AllUnits(parse, us) && us != [] && 0 < n < |us[0].bytes| && Held(us[0].bytes[..n]).0 == NOTHING
    requires us[0].bytes[..n] + rest == Encode(us)
    ensures var q := Point(delivered, Held(us[0].bytes[..n]).1, us, at + n);
            Consistent(parse, q, rest) && |q.carry.Bytes()| == n
  {
    HeldIsHeld(us, n);
    HeldIsBeginning(us[0].bytes[..n]);
  }

  lemma HeldIsHeld(us: seq<Unit>, n: nat)
    requires us != [] && 0 < n < |us[0].bytes|
    requires Held(us[0].bytes[..n]).0 == NOTHING
    ensures Holds(Held(us[0].bytes[..n]).1, us)
  {
    HeldIsBeginning(us[0].bytes[..n]);
  }

  /** The point after a read that ends inside a key too long to be held. */
  lemma PointInReleased(parse: Reader, delivered: Out, us: seq<Unit>, k: nat, n: nat, at: nat, dry: set<nat>)
    requires AllUnits(parse, us) && k < |us| && 0 < n < |us[k].bytes|
    requires Held(us[k].bytes[..n]).0 != NOTHING
    ensures var q := Point(Deliver(delivered, us[..k], at, dry).Then(Out([], us[k].bytes[..n], None)), EMPTY,
                           Texts(us[k].bytes[n..]) + us[k + 1..], at + |Encode(us[..k])| + n);
            && Consistent(parse, q, us[k].bytes[n..] + Encode(us[k + 1..]))
            && Total(q, dry) == Deliver(delivered, us, at, dry)
  {
    DeliverFrom(delivered, us, k, at, dry);
    EncodeFrom(us, k, n);
    assert us[k..][1..] == us[k + 1..];
    ReleaseOverlong(parse, Deliver(delivered, us[..k], at, dry), us[k..], n, us[k].bytes[n..] + Encode(us[k + 1..]),
                    at + |Encode(us[..k])|, dry);
  }

  lemma ReleaseOverlong(parse: Reader, delivered: Out, us: seq<Unit>, n: nat, rest: seq<Byte>, at: nat, dry: set<nat>)
    requires AllUnits(parse, us) && us != [] && 0 < n < |us[0].bytes| && Held(us[0].bytes[..n]).0 != NOTHING
    requires us[0].bytes[..n] + rest == Encode(us)
    ensures var q := Point(delivered.Then(Out([], us[0].bytes[..n], None)), EMPTY, Texts(us[0].bytes[n..]) + us[1..],
            at + n);
            Consistent(parse, q, rest) && Total(q, dry) == Deliver(delivered, us, at, dry)
  {
    HeldIsBeginning(us[0].bytes[..n]);
    OverlongIsText(parse, us[0], n, at + 1 in dry);
    ReleasePoint(parse, delivered, us, n, rest, at, dry);
  }

  lemma OverlongIsText(parse: Reader, u: Unit, n: nat, torn: bool)
    requires IsUnit(parse, u) && 18 < n < |u.bytes| && u.bytes[2] != LESS
    ensures u.Delivered(torn) == Out([], u.bytes, None)
  {
    BeginningShape(parse, u, u.bytes[..n]);
  }

  lemma ReleasePoint(parse: Reader, delivered: Out, us: seq<Unit>, n: nat, rest: seq<Byte>, at: nat, dry: set<nat>)
    requires AllUnits(parse, us) && us != [] && 0 < n < |us[0].bytes|
    requires us[0].bytes[..n] + rest == Encode(us)
    requires us[0].Delivered(at + 1 in dry) == Out([], us[0].bytes, None)
    ensures var q := Point(delivered.Then(Out([], us[0].bytes[..n], None)), EMPTY, Texts(us[0].bytes[n..]) + us[1..],
            at + n);
            Consistent(parse, q, rest) && Total(q, dry) == Deliver(delivered, us, at, dry)
  {
    var unread := Texts(us[0].bytes[n..]) + us[1..];
    Release(parse, delivered, us, n, at, dry);
    SameSplit(us[0].bytes[..n], rest, us[0].bytes[..n], Encode(unread));
    HoldsNothing(unread);
    assert [] + rest == rest;
  }

  lemma SameSplit(a: seq<Byte>, b: seq<Byte>, c: seq<Byte>, d: seq<Byte>)
    requires a + b == c + d && |a| == |c|
    ensures a == c && b == d
  {
    assert a == (a + b)[..|a|] && b == (a + b)[|a|..];
    assert c == (c + d)[..|c|] && d == (c + d)[|c|..];
  }

  /** One read, wherever it is cut. */
  lemma ReadAnywhere(
    parse: Reader, delivered: Out, us: seq<Unit>, raw: seq<Byte>, rest: seq<Byte>, at: nat, dry: set<nat>
  ) returns (q: Point)
    requires AllUnits(parse, us) && raw + rest == Encode(us)
    requires forall d :: d in dry ==> d >= at + |raw|
    ensures (q.delivered, q.carry) == ReadOnto(parse)(delivered, raw) && q.pos == at + |raw|
    ensures Consistent(parse, q, rest) && Total(q, dry) == Deliver(delivered, us, at, dry)
    ensures NewFrom(q.unread, us)
  {
    var k := Cut(us, |raw|);
    var n := |raw| - |Encode(us[..k])|;
    CutBytes(us, k);
    if n == 0 {
      SameSplit(raw, rest, Encode(us[..k]), Encode(us[k..]));
      q := ReadToBoundary(parse, delivered, us, k, at, dry);
      SuffixNew(us, k);
    } else {
      SplitInside(us, k, n, raw, rest);
      SuffixNew(us, k);
      TextsNew(parse, us, k, n);
      q := ReadInsideUnit(parse, delivered, us, k, n, at, dry);
    }
  }

  /** Every unit still unread was unread before, or is text. */
  ghost predicate NewFrom(now: seq<Unit>, before: seq<Unit>) {
    forall i :: 0 <= i < |now| ==> IsText(now[i]) || now[i] in before
  }

  lemma SuffixNew(us: seq<Unit>, k: nat)
    requires k <= |us|
    ensures NewFrom(us[k..], us)
  {
  }

  lemma {:induction false} TextsAreText(text: seq<Byte>)
    requires ESC !in text
    ensures forall i :: 0 <= i < |Texts(text)| ==> IsText(Texts(text)[i])
  {
    if text != [] {
      assert text[0] in text;
      TextsAreText(text[1..]);
    }
  }

  lemma TextsNew(parse: Reader, us: seq<Unit>, k: nat, n: nat)
    requires AllUnits(parse, us) && k < |us| && 0 < n < |us[k].bytes|
    ensures NewFrom(Texts(us[k].bytes[n..]) + us[k + 1..], us)
  {
    TailIsText(parse, us[k], n);
    TextsAreText(us[k].bytes[n..]);
    SuffixNew(us, k + 1);
  }

  lemma ReadToBoundary(parse: Reader, delivered: Out, us: seq<Unit>, k: nat, at: nat, dry: set<nat>) returns (q: Point)
    requires AllUnits(parse, us) && k <= |us|
    requires forall d :: d in dry ==> d >= at + |Encode(us[..k])|
    ensures (q.delivered, q.carry) == ReadOnto(parse)(delivered, Encode(us[..k])) && q.pos == at + |Encode(us[..k])|
    ensures Consistent(parse, q, Encode(us[k..])) && Total(q, dry) == Deliver(delivered, us, at, dry)
    ensures q.unread == us[k..]
  {
    ReadBetween(parse, delivered, us[..k], at, dry);
    q := PointAtBoundary(parse, delivered, us, k, at, dry);
  }

  lemma SplitInside(us: seq<Unit>, k: nat, n: nat, raw: seq<Byte>, rest: seq<Byte>)
    requires k < |us| && raw + rest == Encode(us[..k]) + Encode(us[k..])
    requires 0 < n < |us[k].bytes| && |raw| == |Encode(us[..k])| + n
    ensures raw == Encode(us[..k]) + us[k].bytes[..n] && rest == us[k].bytes[n..] + Encode(us[k + 1..])
  {
    var p, tail := us[k].bytes[..n], us[k].bytes[n..] + Encode(us[k + 1..]);
    EncodeFrom(us, k, n);
    assert Encode(us[..k]) + (p + tail) == (Encode(us[..k]) + p) + tail;
    SameSplit(raw, rest, Encode(us[..k]) + p, tail);
  }

  lemma ReadInsideUnit(
    parse: Reader, delivered: Out, us: seq<Unit>, k: nat, n: nat, at: nat, dry: set<nat>
  ) returns (q: Point)
    requires AllUnits(parse, us) && k < |us| && 0 < n < |us[k].bytes|
    requires forall d :: d in dry ==> d >= at + |Encode(us[..k])| + n
    ensures (q.delivered, q.carry) == ReadOnto(parse)(delivered, Encode(us[..k]) + us[k].bytes[..n])
    ensures q.pos == at + |Encode(us[..k])| + n
    ensures Consistent(parse, q, us[k].bytes[n..] + Encode(us[k + 1..]))
    ensures Total(q, dry) == Deliver(delivered, us, at, dry)
    ensures q.unread == us[k..] || q.unread == Texts(us[k].bytes[n..]) + us[k + 1..]
  {
    ReadInside(parse, delivered, us, k, n, at, dry);
    q := PointInside(parse, delivered, us, k, n, at, dry);
  }

  lemma PointInside(
    parse: Reader, delivered: Out, us: seq<Unit>, k: nat, n: nat, at: nat, dry: set<nat>
  ) returns (q: Point)
    requires AllUnits(parse, us) && k < |us| && 0 < n < |us[k].bytes|
    ensures var held := Held(us[k].bytes[..n]);
            (q.delivered, q.carry) == (Deliver(delivered, us[..k], at, dry).Then(held.0), held.1)
    ensures q.pos == at + |Encode(us[..k])| + n
    ensures Consistent(parse, q, us[k].bytes[n..] + Encode(us[k + 1..]))
    ensures Total(q, dry) == Deliver(delivered, us, at, dry)
    ensures q.unread == us[k..] || q.unread == Texts(us[k].bytes[n..]) + us[k + 1..]
  {
    var p, done := us[k].bytes[..n], Deliver(delivered, us[..k], at, dry);
    if Held(p).0 == NOTHING {
      PointInHeld(parse, delivered, us, k, n, at, dry);
      ThenNothing(done);
      q := Point(done, Held(p).1, us[k..], at + |Encode(us[..k])| + n);
    } else {
      PointInReleased(parse, delivered, us, k, n, at, dry);
      q := Point(done.Then(Out([], p, None)), EMPTY, Texts(us[k].bytes[n..]) + us[k + 1..], at + |Encode(us[..k])| + n);
    }
  }

  // ----- Dry reads

  lemma {:induction false} DryInThePast(delivered: Out, us: seq<Unit>, at: nat, dry: set<nat>, d: nat)
    requires d <= at
    ensures Deliver(delivered, us, at, {d} + dry) == Deliver(delivered, us, at, dry)
    decreases |us|
  {
    if us != [] {
      var next := delivered.Then(us[0].Delivered(at + 1 in dry));
      DryInThePast(next, us[1..], at + |us[0].bytes|, dry, d);
    }
  }

  lemma DryInsideUnit(delivered: Out, us: seq<Unit>, at: nat, dry: set<nat>, d: nat)
    requires us != [] && d != at + 1 && d <= at + |us[0].bytes|
    ensures Deliver(delivered, us, at, {d} + dry) == Deliver(delivered, us, at, dry)
  {
    var next := delivered.Then(us[0].Delivered(at + 1 in dry));
    DryInThePast(next, us[1..], at + |us[0].bytes|, dry, d);
  }

  lemma DryOut(parse: Reader, u: Unit, carry: Carry)
    requires IsUnit(parse, u) && carry.mouse == [] && carry.key != [] && StrictPrefix(carry.key, u.bytes)
    requires |carry.key| > 1 ==> |carry.key| > 2 && carry.key[2] != LESS
    requires !IncompleteCsiKey(carry.key)
    ensures Dry(carry) == (Out([], carry.key, None), EMPTY)
  {
    BeginningShape(parse, u, carry.key);
    if |carry.key| == 1 {
      StripLoneEscape(carry.key);
    } else {
      StripKeyStart(carry.key);
    }
  }

  lemma StripLoneEscape(p: seq<Byte>)
    requires |p| == 1
    ensures StripFocus(p) == Focus(None, p)
  {
    assert p[1..] == [];
    assert StripFocus(p[1..]) == Focus(None, []);
    assert [p[0]] + [] == p;
  }

  lemma TornDelivers(parse: Reader, u: Unit, held: seq<Byte>, at: nat, dry: set<nat>)
    requires IsUnit(parse, u) && held != [] && StrictPrefix(held, u.bytes)
    requires |held| > 1 ==> |held| > 2 && held[2] != LESS
    requires at + |held| in dry && forall d :: d in dry ==> d >= at + |held|
    ensures u.Delivered(at + 1 in dry) == Out([], u.bytes, None)
  {
    BeginningShape(parse, u, held);
    if |held| > 1 {
      assert u.bytes[2] == held[2];
    }
  }

  lemma DryKeeps(p: Point, later: set<nat>)
    requires |p.carry.Bytes()| <= p.pos && Holds(p.carry, p.unread)
    requires p.carry.key == [] || IncompleteCsiKey(p.carry.key)
    ensures Total(p, {p.pos} + later) == Total(p, later)
  {
    var at := p.pos - |p.carry.Bytes()|;
    if p.carry.Bytes() == [] {
      DryInThePast(p.delivered, p.unread, at, later, p.pos);
    } else {
      DryInsideUnit(p.delivered, p.unread, at, later, p.pos);
    }
  }

  lemma DryReleases(parse: Reader, p: Point, rest: seq<Byte>, later: set<nat>) returns (q: Point)
    requires Consistent(parse, p, rest)
    requires forall d :: d in later ==> d >= p.pos
    requires p.carry.key != [] && !IncompleteCsiKey(p.carry.key)
    ensures q.delivered == p.delivered.Then(Dry(p.carry).0) && q.carry == Dry(p.carry).1 && q.pos == p.pos
    ensures Consistent(parse, q, rest) && Total(q, later) == Total(p, {p.pos} + later)
  {
    var key, us := p.carry.key, p.unread;
    HeldKey(p.carry, us);
    DryOut(parse, us[0], p.carry);
    q := ReleaseKey(parse, p.delivered, us, key, rest, p.pos, later);
  }

  lemma HeldKey(carry: Carry, us: seq<Unit>)
    requires Holds(carry, us) && carry.key != []
    ensures us != [] && carry.mouse == [] && carry.Bytes() == carry.key && StrictPrefix(carry.key, us[0].bytes)
    ensures carry.key == us[0].bytes[..|carry.key|]
  {
    assert [] + carry.key == carry.key;
  }

  lemma ReleaseKey(
    parse: Reader, delivered: Out, us: seq<Unit>, key: seq<Byte>, rest: seq<Byte>, pos: nat, later: set<nat>
  )
    returns (q: Point)
    requires AllUnits(parse, us) && us != [] && key != [] && StrictPrefix(key, us[0].bytes)
    requires key == us[0].bytes[..|key|]
    requires |key| > 1 ==> |key| > 2 && key[2] != LESS
    requires key + rest == Encode(us) && |key| <= pos && forall d :: d in later ==> d >= pos
    ensures q.delivered == delivered.Then(Out([], key, None)) && q.carry == EMPTY && q.pos == pos
    ensures Consistent(parse, q, rest) && Total(q, later) == Deliver(delivered, us, pos - |key|, {pos} + later)
    ensures q.unread == Texts(us[0].bytes[|key|..]) + us[1..]
  {
    TornDelivers(parse, us[0], key, pos - |key|, {pos} + later);
    q := Point(delivered.Then(Out([], key, None)), EMPTY, Texts(us[0].bytes[|key|..]) + us[1..], pos);
    ReleasePoint(parse, delivered, us, |key|, rest, pos - |key|, {pos} + later);
    DryAfterRelease(q, later);
  }

  lemma DryAfterRelease(q: Point, later: set<nat>)
    requires q.carry == EMPTY
    ensures Total(q, {q.pos} + later) == Total(q, later)
  {
    DryInThePast(q.delivered, q.unread, q.pos, later, q.pos);
  }

  // ----- Whole runs

  /** The invariant of a run and what it conserves, as values, so that a run needs no more than what a step keeps. */
  type Invariant = (Point, seq<Byte>) -> bool
  type Conserved = (Point, set<nat>) -> Out

  ghost function Unread(parse: Reader): Invariant {
    (p: Point, rest: seq<Byte>) => Consistent(parse, p, rest)
  }

  ghost function Totals(): Conserved {
    (p: Point, dry: set<nat>) => if |p.carry.Bytes()| <= p.pos then Total(p, dry) else NOTHING
  }

  /** A step of `machine` reads on from a consistent point to a consistent point with the same total. */
  ghost predicate Advances(
    good: Invariant, total: Conserved, machine: Machine, p: Point, step: Step, rest: seq<Byte>, dry: set<nat>,
    later: set<nat>
  ) {
    && good(p, step.Bytes() + rest)
    && dry == DryAt([step], p.pos) + later
    && (forall d :: d in later ==> d >= p.pos + |step.Bytes()|)
    ==>
    exists q :: Reaches(good, total, p, machine(p.carry, step), |step.Bytes()|, rest, dry, later, q)
  }

  ghost predicate Reaches(
    good: Invariant, total: Conserved, p: Point, result: (Out, Carry), n: nat, rest: seq<Byte>, dry: set<nat>,
    later: set<nat>, q: Point
  ) {
    && q.delivered == p.delivered.Then(result.0) && q.carry == result.1 && q.pos == p.pos + n
    && good(q, rest) && total(q, later) == total(p, dry)
  }

  ghost predicate Sound(good: Invariant, total: Conserved, machine: Machine) {
    forall p, step, rest, dry, later :: Advances(good, total, machine, p, step, rest, dry, later)
  }

  lemma ReadIsReadOnto(parse: Reader, delivered: Out, carry: Carry, chunk: seq<Byte>)
    ensures ReadOnto(parse)(delivered, carry.mouse + carry.key + chunk) ==
            (delivered.Then(Read(parse, carry, chunk).0), Read(parse, carry, chunk).1)
  {
  }

  lemma RawBytes(carry: Carry, chunk: seq<Byte>, rest: seq<Byte>)
    ensures (carry.mouse + carry.key + chunk) + rest == carry.Bytes() + (chunk + rest)
    ensures |carry.mouse + carry.key + chunk| == |carry.Bytes()| + |chunk|
  {
  }

  lemma ReadStep(parse: Reader, p: Point, chunk: seq<Byte>, rest: seq<Byte>, later: set<nat>) returns (q: Point)
    requires Consistent(parse, p, chunk + rest)
    requires forall d :: d in later ==> d >= p.pos + |chunk|
    ensures q.delivered == p.delivered.Then(Read(parse, p.carry, chunk).0) && q.carry == Read(parse, p.carry, chunk).1
    ensures q.pos == p.pos + |chunk| && Consistent(parse, q, rest) && Total(q, later) == Total(p, later)
    ensures NewFrom(q.unread, p.unread)
  {
    var raw := p.carry.mouse + p.carry.key + chunk;
    RawBytes(p.carry, chunk, rest);
    q := ReadAnywhere(parse, p.delivered, p.unread, raw, rest, p.pos - |p.carry.Bytes()|, later);
    ReadIsReadOnto(parse, p.delivered, p.carry, chunk);
  }

  lemma DryStep(parse: Reader, p: Point, rest: seq<Byte>, later: set<nat>) returns (q: Point)
    requires Consistent(parse, p, rest)
    requires forall d :: d in later ==> d >= p.pos
    ensures q.delivered == p.delivered.Then(Dry(p.carry).0) && q.carry == Dry(p.carry).1
    ensures q.pos == p.pos && Consistent(parse, q, rest) && Total(q, later) == Total(p, {p.pos} + later)
  {
    if p.carry.key == [] || IncompleteCsiKey(p.carry.key) {
      q := p;
      ThenNothing(p.delivered);
      DryKeeps(p, later);
    } else {
      q := DryReleases(parse, p, rest, later);
    }
  }

  lemma ReachesPoint(
    parse: Reader, p: Point, result: (Out, Carry), n: nat, rest: seq<Byte>, dry: set<nat>, later: set<nat>,
    q: Point
  )
    requires |p.carry.Bytes()| <= p.pos && Consistent(parse, q, rest) && Total(q, later) == Total(p, dry)
    requires q.delivered == p.delivered.Then(result.0) && q.carry == result.1 && q.pos == p.pos + n
    ensures Reaches(Unread(parse), Totals(), p, result, n, rest, dry, later, q)
  {
  }

  lemma ChunkSound(parse: Reader, p: Point, chunk: seq<Byte>, rest: seq<Byte>, dry: set<nat>, later: set<nat>)
    ensures Advances(Unread(parse), Totals(), Decoding(parse), p, Chunk(chunk), rest, dry, later)
  {
    var step := Chunk(chunk);
    assert DryAt([step], p.pos) + later == later;
    if Unread(parse)(p, chunk + rest) && dry == later && (forall d :: d in later ==> d >= p.pos + |chunk|) {
      var q := ReadStep(parse, p, chunk, rest, later);
      ReachesPoint(parse, p, Decoding(parse)(p.carry, step), |step.Bytes()|, rest, dry, later, q);
    }
  }

  lemma IdleSound(parse: Reader, p: Point, rest: seq<Byte>, dry: set<nat>, later: set<nat>)
    ensures Advances(Unread(parse), Totals(), Decoding(parse), p, Idle, rest, dry, later)
  {
    assert [] + rest == rest;
    assert DryAt([Idle], p.pos) == {p.pos};
    if Unread(parse)(p, rest) && dry == {p.pos} + later && (forall d :: d in later ==> d >= p.pos) {
      var q := DryStep(parse, p, rest, later);
      ReachesPoint(parse, p, Decoding(parse)(p.carry, Idle), |Idle.Bytes()|, rest, dry, later, q);
    }
  }

  lemma DecodingSound(parse: Reader)
    ensures Sound(Unread(parse), Totals(), Decoding(parse))
  {
    forall p, step, rest, dry, later ensures Advances(Unread(parse), Totals(), Decoding(parse), p, step, rest, dry,
      later) {
      match step
      case Chunk(chunk) => ChunkSound(parse, p, chunk, rest, dry, later);
      case Idle => IdleSound(parse, p, rest, dry, later);
    }
  }

  lemma DryAtFirst(steps: seq<Step>, pos: nat, later: set<nat>)
    requires steps != []
    ensures DryAt(steps, pos) + later == DryAt([steps[0]], pos) + (DryAt(steps[1..], pos + |steps[0].Bytes()|) + later)
  {
  }

  lemma InputFirst(steps: seq<Step>, rest: seq<Byte>)
    requires steps != []
    ensures Input(steps) + rest == steps[0].Bytes() + (Input(steps[1..]) + rest)
  {
  }

  /**
   After any run of reads and dry reads over a stream of units, the carry is the unread
   beginning of one unit in one buffer, and what was delivered plus what the unread units
   will deliver is what the whole stream means.
   */
  lemma {:induction false} RunAdvances(
    good: Invariant, total: Conserved, machine: Machine, p: Point, steps: seq<Step>, rest: seq<Byte>, later: set<nat>
  ) returns (q: Point)
    requires Sound(good, total, machine) && good(p, Input(steps) + rest)
    requires forall d :: d in later ==> d >= p.pos + |Input(steps)|
    ensures (q.delivered, q.carry) == Run(machine, p.delivered, p.carry, steps) && q.pos == p.pos + |Input(steps)|
    ensures good(q, rest) && total(q, later) == total(p, DryAt(steps, p.pos) + later)
    decreases |steps|
  {
    if steps == [] {
      assert DryAt(steps, p.pos) + later == later;
      assert [] + rest == rest;
      q := p;
    } else {
      var step, tail := steps[0], Input(steps[1..]) + rest;
      InputFirst(steps, rest);
      DryAtFirst(steps, p.pos, later);
      var dry, more := DryAt(steps, p.pos) + later, DryAt(steps[1..], p.pos + |step.Bytes()|) + later;
      assert Advances(good, total, machine, p, step, tail, dry, more);
      var mid :| Reaches(good, total, p, machine(p.carry, step), |step.Bytes()|, tail, dry, more, mid);
      q := RunAdvances(good, total, machine, mid, steps[1..], rest, later);
    }
  }

  // ----- Runs from the beginning

  /**
   A run over `us` that has read `count` bytes and left `unread` units: the carry holds the unread
   beginning of the next one, and what was delivered and what is unread make up the whole meaning.
   */
  ghost predicate Underway(
    result: (Out, Carry), us: seq<Unit>, unread: seq<Unit>, count: nat, rest: seq<Byte>, dry: set<nat>
  ) {
    && Holds(result.1, unread)
    && result.1.Bytes() + rest == Encode(unread)
    && |result.1.Bytes()| <= count
    && Deliver(result.0, unread, count - |result.1.Bytes()|, {}) == Deliver(NOTHING, us, 0, dry)
  }

  lemma RunFromStart(
    parse: Reader, machine: Machine, us: seq<Unit>, steps: seq<Step>, rest: seq<Byte>
  ) returns (unread: seq<Unit>)
    requires Sound(Unread(parse), Totals(), machine) && AllUnits(parse, us) && Input(steps) + rest == Encode(us)
    ensures AllUnits(parse, unread)
    ensures Underway(Run(machine, NOTHING, EMPTY, steps), us, unread, |Input(steps)|, rest, DryAt(steps, 0))
  {
    var p := Point(NOTHING, EMPTY, us, 0);
    HoldsNothing(us);
    assert [] + (Input(steps) + rest) == Input(steps) + rest;
    var q := RunAdvances(Unread(parse), Totals(), machine, p, steps, rest, {});
    assert DryAt(steps, 0) + {} == DryAt(steps, 0);
    StartingTotal(us, DryAt(steps, 0));
    UnderwayAt(parse, us, q, rest, DryAt(steps, 0));
    unread := q.unread;
  }

  lemma StartingTotal(us: seq<Unit>, dry: set<nat>)
    ensures Total(Point(NOTHING, EMPTY, us, 0), dry) == Deliver(NOTHING, us, 0, dry)
  {
  }

  lemma UnderwayAt(parse: Reader, us: seq<Unit>, q: Point, rest: seq<Byte>, dry: set<nat>)
    requires Consistent(parse, q, rest) && Total(q, {}) == Deliver(NOTHING, us, 0, dry)
    ensures Underway((q.delivered, q.carry), us, q.unread, q.pos, rest, dry)
  {
  }

  /** When the stream ends with a unit, nothing is held and everything has been delivered. */
  lemma RunToEnd(parse: Reader, machine: Machine, us: seq<Unit>, steps: seq<Step>)
    requires Sound(Unread(parse), Totals(), machine) && AllUnits(parse, us) && Input(steps) == Encode(us)
    ensures Run(machine, NOTHING, EMPTY, steps) == (Deliver(NOTHING, us, 0, DryAt(steps, 0)), EMPTY)
  {
    assert Input(steps) + [] == Input(steps);
    var unread := RunFromStart(parse, machine, us, steps, []);
    var (out, carry) := Run(machine, NOTHING, EMPTY, steps);
    NothingUnread(parse, carry, unread);
  }

  lemma NothingUnread(parse: Reader, carry: Carry, unread: seq<Unit>)
    requires AllUnits(parse, unread) && Holds(carry, unread) && carry.Bytes() + [] == Encode(unread)
    ensures unread == [] && carry == EMPTY
  {
    assert carry.Bytes() + [] == carry.Bytes();
  }
}
