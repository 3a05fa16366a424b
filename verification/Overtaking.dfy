/**
 A read that arrives while keys are queued and the beginning of a token is held in the mouse buffer
 puts the beginning in front of the keys. When that does no harm, exactly.
 */
module Overtaking {
  import opened Bytes
  import opened SgrMouse
  import opened StdinScan
  import opened StdinUnits
  import opened StdinFragments
  import opened TailQueue
  import opened QueueRuns

  // ----- What units mean together

  function Means(us: seq<Unit>): Out {
    if us == [] then NOTHING else us[0].meaning.Then(Means(us[1..]))
  }

  lemma {:induction false} DeliverMeans(delivered: Out, us: seq<Unit>, at: nat)
    ensures Deliver(delivered, us, at, {}) == delivered.Then(Means(us))
    decreases |us|
  {
    if us == [] {
      ThenNothing(delivered);
    } else {
      DeliverMeans(delivered.Then(us[0].meaning), us[1..], at + |us[0].bytes|);
      ThenAssociates(delivered, us[0].meaning, Means(us[1..]));
    }
  }

  /** Everything one read of `raw` delivers, if the key it holds back is counted as well. */
  function Yield(parse: Reader, raw: seq<Byte>): Out {
    var (out, carry) := Settle(Scan(parse, raw));
    out.Then(Literal(carry.key))
  }

  /** What stays in the mouse buffer. */
  function Stuck(parse: Reader, raw: seq<Byte>): seq<Byte> { Settle(Scan(parse, raw)).1.mouse }

  lemma YieldUnits(parse: Reader, us: seq<Unit>)
    requires AllUnits(parse, us)
    ensures Yield(parse, Encode(us)) == Means(us) && Stuck(parse, Encode(us)) == []
  {
    ReadBetween(parse, NOTHING, us, 0, {});
    DeliverMeans(NOTHING, us, 0);
    NothingThen(Means(us));
    NothingThen(Settle(Scan(parse, Encode(us))).0);
    ThenNothing(Means(us));
  }

  lemma YieldAfterUnit(parse: Reader, u: Unit, s: seq<Byte>)
    requires IsUnit(parse, u)
    ensures Yield(parse, u.bytes + s) == u.meaning.Then(Yield(parse, s)) && Stuck(parse, u.bytes + s) == Stuck(parse, s)
  {
    SettleAfterUnit(parse, u, s);
    var (out, carry) := Settle(Scan(parse, s));
    ThenAssociates(u.meaning, out, Literal(carry.key));
  }

  lemma {:induction false} YieldAfterQueue(parse: Reader, ws: seq<Unit>, queue: seq<Byte>, s: seq<Byte>)
    requires Spells(parse, ws, queue)
    ensures Yield(parse, queue + s) == Literal(queue).Then(Yield(parse, s))
    ensures Stuck(parse, queue + s) == Stuck(parse, s)
    decreases |ws|
  {
    if ws == [] {
      assert queue + s == s;
      NothingThen(Yield(parse, s));
    } else {
      SpellsTail(parse, ws, queue);
      var e, rest := ws[0].bytes, Encode(ws[1..]);
      assert queue + s == e + (rest + s);
      YieldAfterUnit(parse, ws[0], rest + s);
      YieldAfterQueue(parse, ws[1..], rest, s);
      ThenAssociates(Literal(e), Literal(rest), Yield(parse, s));
      assert Literal(e).Then(Literal(rest)) == Literal(e + rest);
    }
  }

  // ----- A mouse beginning with anything behind it

  /** An unfinished report: its terminator has not come yet. */
  predicate Open(g: seq<Byte>) {
    |g| >= 3 && g[0] == ESC && g[1] == OPEN && g[2] == LESS && forall i :: 3 <= i < |g| ==> !IsTerminator(g[i])
  }

  lemma ScanOpen(parse: Reader, g: seq<Byte>, term: Byte, s: seq<Byte>)
    requires Open(g) && IsTerminator(term)
    ensures Scan(parse, g + [term] + s) == Scan(parse, s).After(EventOf(parse, g[3..], term), [])
  {
    var buf := g + [term] + s;
    TerminatorAfter(g, term, s);
    assert buf[3..|g|] == g[3..] && buf[|g| + 1..] == s && buf[|g|] == term;
  }

  lemma TerminatorAfter(g: seq<Byte>, term: Byte, s: seq<Byte>)
    requires Open(g) && IsTerminator(term)
    ensures FirstIndex((g + [term] + s)[3..], IsTerminator) == |g| - 3
  {
    var rest := (g + [term] + s)[3..];
    var off := |g| - 3;
    assert rest[off] == term && forall i :: 0 <= i < off ==> rest[i] == g[3 + i];
  }

  lemma YieldOpen(parse: Reader, g: seq<Byte>, term: Byte, s: seq<Byte>)
    requires Open(g) && IsTerminator(term)
    ensures Yield(parse, g + [term] + s) == Out(EventOf(parse, g[3..], term), [], None).Then(Yield(parse, s))
    ensures Stuck(parse, g + [term] + s) == Stuck(parse, s)
  {
    var events := EventOf(parse, g[3..], term);
    ScanOpen(parse, g, term, s);
    SettleAfterReport(events, Scan(parse, s));
    var (out, carry) := Settle(Scan(parse, s));
    ThenAssociates(Out(events, [], None), out, Literal(carry.key));
  }

  lemma StuckOpen(parse: Reader, g: seq<Byte>)
    requires Open(g)
    ensures Stuck(parse, g) == g
  {
    assert FirstIndex(g[3..], IsTerminator) == |g| - 3;
  }

  /** A terminator stands only at the end of a unit. */
  lemma TerminatorIsLast(parse: Reader, u: Unit, i: nat)
    requires IsUnit(parse, u) && i < |u.bytes| - 1
    ensures !IsTerminator(u.bytes[i])
  {
    if IsReport(parse, u) {
      assert i < 3 || !IsTerminator(u.bytes[i]);
    } else {
      assert i < 2 || !IsFinal(u.bytes[i]);
    }
  }

  /** An unfinished report swallows units up to a terminator: no more keys come out than theirs, if it ends at all. */
  lemma {:induction false} OpenSwallows(parse: Reader, g: seq<Byte>, us: seq<Unit>)
    requires Open(g) && AllUnits(parse, us)
    ensures Stuck(parse, g + Encode(us)) != [] || |Yield(parse, g + Encode(us)).keys| <= |Means(us).keys|
    decreases |us|
  {
    if us == [] {
      assert g + [] == g;
      StuckOpen(parse, g);
    } else {
      var e, rest := us[0].bytes, Encode(us[1..]);
      var init, last := e[..|e| - 1], e[|e| - 1];
      forall i | 0 <= i < |init| ensures !IsTerminator(init[i]) {
        TerminatorIsLast(parse, us[0], i);
      }
      if IsTerminator(last) {
        assert g + (e + rest) == (g + init) + [last] + rest;
        YieldOpen(parse, g + init, last, rest);
        YieldUnits(parse, us[1..]);
      } else {
        assert g + (e + rest) == (g + e) + rest;
        assert Open(g + e);
        OpenSwallows(parse, g + e, us[1..]);
      }
    }
  }

  // ----- Repetitions

  /** A whole number of copies of `r`. */
  predicate Repeats(q: seq<Byte>, r: seq<Byte>)
    decreases |q|
  {
    q == [] || (r != [] && r <= q && Repeats(q[|r|..], r))
  }

  /** The only terminator stands at the end. */
  predicate EndsOnce(r: seq<Byte>) {
    r != [] && IsTerminator(r[|r| - 1]) && forall i :: 0 <= i < |r| - 1 ==> !IsTerminator(r[i])
  }

  lemma {:induction false} RepeatsCommutes(q: seq<Byte>, r: seq<Byte>)
    requires Repeats(q, r)
    ensures r + q == q + r
    decreases |q|
  {
    if q != [] {
      var rest := q[|r|..];
      RepeatsCommutes(rest, r);
      assert q == r + rest;
      assert r + (r + rest) == r + (rest + r) == (r + rest) + r;
    } else {
      assert r + [] == r == [] + r;
    }
  }

  /** If moving the first part to the end changes nothing but its place, it is what came to the end, repeated. */
  lemma {:induction false} Rotation(w: seq<Byte>, s: seq<Byte>, r: seq<Byte>)
    requires EndsOnce(w) && EndsOnce(r) && w + s == s + r
    ensures w == r && Repeats(s, r)
    decreases |s|
  {
    assert |w| == |r|;
    if |s| >= |w| {
      var rest := s[|w|..];
      assert s == w + rest by {
        assert (w + s)[..|w|] == (s + r)[..|w|];
        assert (w + s)[..|w|] == w && (s + r)[..|w|] == s[..|w|];
      }
      assert w + rest == rest + r by {
        assert (w + s)[|w|..] == s && (s + r)[|w|..] == rest + r;
      }
      Rotation(w, rest, r);
    } else if s == [] {
      assert w + s == w && s + r == r;
    } else {
      Overlap(w, s, r);
    }
  }

  lemma Overlap(w: seq<Byte>, s: seq<Byte>, r: seq<Byte>)
    requires w + s == s + r && 0 < |s| < |w| == |r|
    ensures r[|w| - |s| - 1] == w[|w| - 1]
  {
    assert (w + s)[|w| - 1] == w[|w| - 1] && (s + r)[|w| - 1] == r[|w| - |s| - 1];
  }

  lemma {:induction false} AllSame(q: seq<Byte>, x: Byte, i: nat)
    requires i < |q| && q[1..] + [x] == q
    ensures q[|q| - 1 - i] == x
    decreases i
  {
    if i == 0 {
      assert (q[1..] + [x])[|q| - 1] == x;
    } else {
      AllSame(q, x, i - 1);
      assert (q[1..] + [x])[|q| - 1 - i] == q[|q| - i];
    }
  }

  lemma {:induction false} SameRepeats(q: seq<Byte>, x: Byte)
    requires q != [] && q[1..] + [x] == q
    ensures Repeats(q, [x])
    decreases |q|
  {
    AllSame(q, x, |q| - 1);
    var rest := q[1..];
    if rest != [] {
      assert rest[1..] + [x] == rest by {
        assert (q[1..] + [x])[1..] == rest[1..] + [x];
      }
      SameRepeats(rest, x);
    }
    assert [x] <= q;
  }

  // ----- The three ways an overtaken read goes

  /** What the read should come to: the queued keys, the token whose beginning is held, and the rest. */
  function Due(queue: seq<Byte>, u: Unit, us: seq<Unit>): Out {
    Literal(queue).Then(u.meaning).Then(Means(us))
  }

  /** `right` says whether all is as it should be, and the keys alone show it. */
  predicate Decides(got: Out, due: Out, right: bool) {
    (got.keys == due.keys ==> right) && (right ==> got == due)
  }

  lemma DecidesBefore(got: Out, due: Out, right: bool, rest: Out)
    requires Decides(got, due, right)
    ensures Decides(got.Then(rest), due.Then(rest), right)
  {
    if got.keys + rest.keys == due.keys + rest.keys {
      assert |got.keys| == |due.keys|;
      SameSplit(got.keys, rest.keys, due.keys, rest.keys);
    }
  }

  lemma DecidesBehind(before: Out, got: Out, due: Out, right: bool)
    requires Decides(got, due, right)
    ensures Decides(before.Then(got), before.Then(due), right)
  {
    if before.keys + got.keys == before.keys + due.keys {
      SameSplit(before.keys, got.keys, before.keys, due.keys);
    }
  }

  lemma LiteralKeys(queue: seq<Byte>, u: Unit, us: seq<Unit>)
    ensures Due(queue, u, us).keys == queue + u.meaning.keys + Means(us).keys
  {
  }

  /** Queued keys without a terminator are swallowed. */
  lemma Swallowed(parse: Reader, m: seq<Byte>, queue: seq<Byte>, r: seq<Byte>, u: Unit, us: seq<Unit>)
    requires IsUnit(parse, u) && u.bytes == m + r && r != [] && |m| >= 2 && AllUnits(parse, us)
    requires queue != [] && Open(m + queue)
    ensures var raw := m + queue + r + Encode(us);
            !(Stuck(parse, raw) == [] && Yield(parse, raw).keys == Due(queue, u, us).keys)
  {
    var g, init, last, rest := m + queue, r[..|r| - 1], r[|r| - 1], Encode(us);
    forall i | 0 <= i < |init| ensures !IsTerminator(init[i]) {
      assert init[i] == u.bytes[|m| + i];
      TerminatorIsLast(parse, u, |m| + i);
    }
    LiteralKeys(queue, u, us);
    if IsTerminator(last) {
      assert m + queue + r + rest == (g + init) + [last] + rest;
      YieldOpen(parse, g + init, last, rest);
      YieldUnits(parse, us);
    } else {
      assert m + queue + r + rest == (g + r) + rest;
      OpenSwallows(parse, g + r, us);
    }
  }

  /** A terminator among the queued keys ends the report early; the rest of it is typed. */
  lemma EndsEarly(
    parse: Reader, m: seq<Byte>, w: seq<Byte>, s: seq<Byte>, r: seq<Byte>, u: Unit, us: seq<Unit>
  )
    requires IsUnit(parse, u) && u.bytes == m + r && r != [] && |m| >= 2 && AllUnits(parse, us)
    requires w != [] && Open((m + w)[..|m + w| - 1]) && IsTerminator(w[|w| - 1]) && Queueable(parse, s)
    ensures var raw := m + (w + s) + r + Encode(us);
            && Stuck(parse, raw) == []
            && Yield(parse, raw) ==
               Out(EventOf(parse, (m + w)[3..|m + w| - 1], w[|w| - 1]), s + r, None).Then(Means(us))
  {
    var g, term, rest := (m + w)[..|m + w| - 1], w[|w| - 1], Encode(us);
    EarlyBytes(m, w, s, r, rest);
    YieldOpen(parse, g, term, (s + r) + rest);
    TypedRest(parse, m, s, r, u, us);
    var events := EventOf(parse, g[3..], term);
    ThenAssociates(Out(events, [], None), Literal(s + r), Means(us));
    assert Out(events, [], None).Then(Literal(s + r)) == Out(events, s + r, None) by {
      assert events + [] == events && [] + (s + r) == s + r;
    }
  }

  lemma EarlyBytes(m: seq<Byte>, w: seq<Byte>, s: seq<Byte>, r: seq<Byte>, rest: seq<Byte>)
    requires w != [] && |m + w| > 3
    ensures var g, term := (m + w)[..|m + w| - 1], w[|w| - 1];
            m + (w + s) + r + rest == g + [term] + ((s + r) + rest) && g[3..] == (m + w)[3..|m + w| - 1]
  {
    var g, term := (m + w)[..|m + w| - 1], w[|w| - 1];
    assert m + w == g + [term];
    assert m + (w + s) + r + rest == (m + w) + ((s + r) + rest);
  }

  lemma TypedRest(parse: Reader, m: seq<Byte>, s: seq<Byte>, r: seq<Byte>, u: Unit, us: seq<Unit>)
    requires IsUnit(parse, u) && u.bytes == m + r && |m| >= 2 && AllUnits(parse, us) && Queueable(parse, s)
    ensures Yield(parse, (s + r) + Encode(us)) == Literal(s + r).Then(Means(us))
    ensures Stuck(parse, (s + r) + Encode(us)) == []
  {
    TailIsText(parse, u, |m|);
    assert u.bytes[|m|..] == r;
    QueueableText(parse, r);
    QueueableConcat(parse, s, r);
    var ws :| Spells(parse, ws, s + r);
    YieldAfterQueue(parse, ws, s + r, Encode(us));
    YieldUnits(parse, us);
  }

  /** The bytes of a unit whose first two are `ESC [`. */
  lemma CsiShape(parse: Reader, m: seq<Byte>, r: seq<Byte>, u: Unit)
    requires IsUnit(parse, u) && u.bytes == m + r && |m| >= 2 && r != []
    ensures m[0] == ESC && m[1] == OPEN && ESC !in r
    ensures |m| == 2 ==> u.bytes[2] == r[0]
    ensures IsReport(parse, u) || IsFocusReport(u.bytes) || IsLiteral(u)
    ensures IsLiteral(u) || u.meaning.keys == []
  {
    BeginningShape(parse, u, m);
    TailIsText(parse, u, |m|);
    assert u.bytes[|m|..] == r;
  }

  lemma ReportRest(parse: Reader, m: seq<Byte>, r: seq<Byte>, u: Unit)
    requires IsReport(parse, u) && u.bytes == m + r && |m| >= 2 && r != []
    ensures EndsOnce(r) && u.meaning == Out(EventOf(parse, (m + r)[3..|m + r| - 1], r[|r| - 1]), [], None)
    ensures |m| > 2 ==> m[2] == LESS
    ensures |m| == 2 ==> r[0] == LESS && |r| > 1
  {
    forall i | 0 <= i < |r| - 1 ensures !IsTerminator(r[i]) {
      assert r[i] == u.bytes[|m| + i];
      TerminatorIsLast(parse, u, |m| + i);
    }
    assert r[|r| - 1] == u.bytes[|u.bytes| - 1];
  }

  lemma RepeatsStarts(q: seq<Byte>, r: seq<Byte>)
    requires Repeats(q, r) && q != []
    ensures r != [] && q[0] == r[0]
  {
    assert r == q[..|r|];
  }

  lemma SameBeginning(a: seq<Byte>, b: seq<Byte>, x: seq<Byte>)
    requires a <= x && b <= x && EndsOnce(a) && EndsOnce(b)
    ensures a == b
  {
    var n := if |a| < |b| then |a| else |b|;
    assert a == x[..|a|] && b == x[..|b|];
    assert a[n - 1] == x[n - 1] == b[n - 1];
  }

  lemma FirstCopy(w: seq<Byte>, s: seq<Byte>, r: seq<Byte>)
    requires EndsOnce(w) && EndsOnce(r)
    ensures Repeats(w + s, r) <==> w == r && Repeats(s, r)
  {
    assert w <= w + s && (w + s)[|w|..] == s;
    if Repeats(w + s, r) {
      SameBeginning(w, r, w + s);
    }
  }

  /** Right exactly if the queue repeats the rest of the token, where the queue ends the report early. */
  lemma EarlyExactly(
    parse: Reader, m: seq<Byte>, w: seq<Byte>, s: seq<Byte>, r: seq<Byte>, u: Unit, us: seq<Unit>
  )
    requires IsUnit(parse, u) && u.bytes == m + r && r != [] && |m| >= 2 && |m + w| > 3
    requires EndsOnce(w) && (|m| == 2 ==> |w| > 1 && w[0] == LESS) && (|m| > 2 ==> m[2] == LESS)
    ensures Decides(Out(EventOf(parse, (m + w)[3..|m + w| - 1], w[|w| - 1]), s + r, None).Then(Means(us)),
                    Due(w + s, u, us), u.meaning.keys == [] && Repeats(w + s, r))
  {
    var got := Out(EventOf(parse, (m + w)[3..|m + w| - 1], w[|w| - 1]), s + r, None);
    CsiShape(parse, m, r, u);
    if IsReport(parse, u) {
      EarlyReport(parse, m, w, s, r, u);
    } else {
      EarlyOther(parse, m, w, s, r, u);
    }
    DecidesBefore(got, Literal(w + s).Then(u.meaning), u.meaning.keys == [] && Repeats(w + s, r), Means(us));
  }

  lemma EarlyReport(parse: Reader, m: seq<Byte>, w: seq<Byte>, s: seq<Byte>, r: seq<Byte>, u: Unit)
    requires IsReport(parse, u) && u.bytes == m + r && r != [] && |m| >= 2 && |m + w| > 3 && EndsOnce(w)
    ensures var got := Out(EventOf(parse, (m + w)[3..|m + w| - 1], w[|w| - 1]), s + r, None);
            var due := Literal(w + s).Then(u.meaning);
            && (got.keys == due.keys <==> Repeats(w + s, r))
            && (Repeats(w + s, r) ==> got == due)
            && u.meaning.keys == []
  {
    ReportRest(parse, m, r, u);
    RotatesExactly(w, s, r);
    BehindKeys(w + s, u.meaning);
    SameReport(parse, m, w, s, r, u.meaning);
  }

  lemma SameReport(parse: Reader, m: seq<Byte>, w: seq<Byte>, s: seq<Byte>, r: seq<Byte>, meaning: Out)
    requires |m + w| > 3 && w != [] && r != [] && |m + r| > 3
    requires meaning == Out(EventOf(parse, (m + r)[3..|m + r| - 1], r[|r| - 1]), [], None)
    ensures w == r && s + r == w + s ==>
              Out(EventOf(parse, (m + w)[3..|m + w| - 1], w[|w| - 1]), s + r, None) ==
              Out(meaning.events, w + s, meaning.focused)
  {
  }

  lemma BehindKeys(keys: seq<Byte>, meaning: Out)
    requires meaning.keys == []
    ensures Literal(keys).Then(meaning) == Out(meaning.events, keys, meaning.focused)
  {
    assert keys + [] == keys && [] + meaning.events == meaning.events;
  }

  lemma RotatesExactly(w: seq<Byte>, s: seq<Byte>, r: seq<Byte>)
    requires EndsOnce(w) && EndsOnce(r)
    ensures s + r == w + s <==> Repeats(w + s, r)
    ensures Repeats(w + s, r) ==> w == r
  {
    FirstCopy(w, s, r);
    if w + s == s + r {
      Rotation(w, s, r);
    }
    if w == r && Repeats(s, r) {
      RepeatsCommutes(s, r);
    }
  }

  lemma EarlyOther(parse: Reader, m: seq<Byte>, w: seq<Byte>, s: seq<Byte>, r: seq<Byte>, u: Unit)
    requires IsUnit(parse, u) && !IsReport(parse, u) && u.bytes == m + r && r != [] && |m| >= 2
    requires EndsOnce(w) && (|m| == 2 ==> |w| > 1 && w[0] == LESS) && (|m| > 2 ==> m[2] == LESS)
    ensures (s + r) != (w + s) + u.meaning.keys
    ensures !(u.meaning.keys == [] && Repeats(w + s, r))
  {
    CsiShape(parse, m, r, u);
    assert |m| == 2 && IsKey(u);
    if IsFocusReport(u.bytes) {
      assert |r| == 1 && r[0] != LESS && (w + s)[0] == LESS;
      if Repeats(w + s, r) {
        RepeatsStarts(w + s, r);
      }
    }
  }

  /** `ESC [` in front of a queued I or O reads as a focus report. */
  lemma FocusExactly(parse: Reader, queue: seq<Byte>, r: seq<Byte>, u: Unit, us: seq<Unit>)
    requires IsUnit(parse, u) && u.bytes == [ESC, OPEN] + r && r != [] && AllUnits(parse, us)
    requires Queueable(parse, queue) && queue != [] && (queue[0] == FOCUS_IN || queue[0] == FOCUS_OUT)
    ensures var raw := [ESC, OPEN] + queue + r + Encode(us);
            Stuck(parse, raw) == []
            && Decides(Yield(parse, raw), Due(queue, u, us), u.meaning.keys == [] && Repeats(queue, r))
  {
    var f := Unit([ESC, OPEN, queue[0]], Out([], [], Some(queue[0] == FOCUS_IN)));
    var tail, rest := queue[1..] + r, Encode(us);
    FocusBytes(queue, r, rest);
    YieldAfterUnit(parse, f, tail + rest);
    YieldTyped(parse, queue, r, u, us);
    ThenAssociates(f.meaning, Literal(tail), Means(us));
    FocusRotates(parse, queue, r, u, us);
  }

  lemma FocusBytes(queue: seq<Byte>, r: seq<Byte>, rest: seq<Byte>)
    requires queue != []
    ensures [ESC, OPEN] + queue + r + rest == [ESC, OPEN, queue[0]] + ((queue[1..] + r) + rest)
  {
  }

  lemma YieldTyped(parse: Reader, queue: seq<Byte>, r: seq<Byte>, u: Unit, us: seq<Unit>)
    requires IsUnit(parse, u) && u.bytes == [ESC, OPEN] + r && r != [] && AllUnits(parse, us)
    requires Queueable(parse, queue) && queue != []
    ensures var tail := queue[1..] + r;
            && Yield(parse, tail + Encode(us)) == Literal(tail).Then(Means(us))
            && Stuck(parse, tail + Encode(us)) == []
  {
    CsiShape(parse, [ESC, OPEN], r, u);
    QueueRest(parse, queue, r);
    var ws: seq<Unit> :| Spells(parse, ws, queue[1..] + r);
    YieldAfterQueue(parse, ws, queue[1..] + r, Encode(us));
    YieldUnits(parse, us);
  }

  lemma QueueRest(parse: Reader, queue: seq<Byte>, r: seq<Byte>)
    requires Queueable(parse, queue) && queue != [] && ESC !in r
    ensures Queueable(parse, queue[1..] + r)
  {
    var ws: seq<Unit> :| Spells(parse, ws, queue);
    QueueableSuffix(parse, ws, queue, 1);
    QueueableText(parse, r);
    QueueableConcat(parse, queue[1..], r);
  }

  lemma FocusRotates(parse: Reader, queue: seq<Byte>, r: seq<Byte>, u: Unit, us: seq<Unit>)
    requires IsUnit(parse, u) && u.bytes == [ESC, OPEN] + r && r != []
    requires queue != [] && (queue[0] == FOCUS_IN || queue[0] == FOCUS_OUT)
    ensures Decides(Out([], [], Some(queue[0] == FOCUS_IN)).Then(Literal(queue[1..] + r)).Then(Means(us)),
                    Due(queue, u, us), u.meaning.keys == [] && Repeats(queue, r))
  {
    var got, due := Out([], [], Some(queue[0] == FOCUS_IN)).Then(Literal(queue[1..] + r)),
      Literal(queue).Then(u.meaning);
    CsiShape(parse, [ESC, OPEN], r, u);
    assert got.keys == queue[1..] + r;
    if IsReport(parse, u) {
      ReportRest(parse, [ESC, OPEN], r, u);
      assert |due.keys| == |queue|;
      if Repeats(queue, r) {
        RepeatsStarts(queue, r);
      }
    } else if IsFocusReport(u.bytes) {
      assert |r| == 1 && r == [r[0]];
      assert due.keys == queue;
      if queue[1..] + r == queue {
        SameRepeats(queue, r[0]);
        AllSame(queue, r[0], |queue| - 1);
        assert got == due;
      } else if Repeats(queue, r) {
        RepeatsCommutes(queue[1..], r);
      }
    } else {
      assert |due.keys| == |queue| + |u.bytes|;
    }
    DecidesBefore(got, due, u.meaning.keys == [] && Repeats(queue, r), Means(us));
  }

  // ----- Any other key behind `ESC [`

  /** All keys of a passed-through text, with those held back. */
  function KeptKeys(pass: seq<Byte>): seq<Byte> { StripFocus(Settled(pass)).keys + PartialEscape(pass) }

  lemma {:induction false} PartialStarts(pass: seq<Byte>)
    ensures PartialEscape(pass) != [] ==> PartialEscape(pass)[0] == ESC
    ensures PartialEscape(pass) == pass[|pass| - |PartialEscape(pass)|..]
  {
    if pass != [] && ESC in pass[1..] {
      PartialStarts(pass[1..]);
    }
  }

  /** `ESC [` and a key that does not complete a focus report come first. */
  lemma KeptStarts(pass: seq<Byte>, z: Byte)
    requires |pass| >= 3 && pass[0] == ESC && pass[1] == OPEN && pass[2] == z
    requires z != FOCUS_IN && z != FOCUS_OUT && !IsFocusReport(pass[2..])
    ensures |KeptKeys(pass)| >= 3 && KeptKeys(pass)[..3] == [ESC, OPEN, z]
  {
    PartialStarts(pass);
    var text, tail := Settled(pass), PartialEscape(pass);
    assert text + tail == pass;
    if |text| == 0 {
      assert StripFocus(text).keys == [];
    } else if |text| == 2 {
      StripTwo(text);
    } else if |text| >= 3 {
      StripThree(text, z);
    }
  }

  lemma StripTwo(text: seq<Byte>)
    requires |text| == 2
    ensures StripFocus(text).keys == text
  {
    assert text[1..] == [text[1]] && text[1..][1..] == [];
    assert StripFocus([]) == Focus(None, []);
    assert StripFocus(text[1..]).keys == [text[1]];
  }

  lemma StripThree(text: seq<Byte>, z: Byte)
    requires |text| >= 3 && text[0] == ESC && text[1] == OPEN && text[2] == z
    requires z != FOCUS_IN && z != FOCUS_OUT && !IsFocusReport(text[2..])
    ensures |StripFocus(text).keys| >= 3 && StripFocus(text).keys[..3] == [ESC, OPEN, z]
  {
    assert text[1..][1..] == text[2..];
    assert StripFocus(text[2..]).keys == [z] + StripFocus(text[2..][1..]).keys;
    assert StripFocus(text[1..]).keys == [OPEN] + StripFocus(text[2..]).keys;
    assert StripFocus(text).keys == [ESC] + StripFocus(text[1..]).keys;
  }

  lemma TypedFirst(parse: Reader, ws: seq<Unit>, queue: seq<Byte>, rest: seq<Byte>)
    requires Spells(parse, ws, queue) && queue != [] && queue[0] !in {LESS, FOCUS_IN, FOCUS_OUT}
    ensures var keys := Yield(parse, [ESC, OPEN] + queue + rest).keys;
            |keys| >= 3 && keys[..3] == [ESC, OPEN, queue[0]]
  {
    SpellsTail(parse, ws, queue);
    var e, tail := ws[0].bytes, Encode(ws[1..]);
    var y := e + (tail + rest);
    assert [ESC, OPEN] + queue + rest == [ESC, OPEN] + y && y[0] == queue[0];
    PassesUnit(parse, ws[0], tail + rest);
    ScanPast(parse, y);
    YieldKept(Scan(parse, [ESC, OPEN] + y));
    var pass := [ESC, OPEN] + Scan(parse, y).pass;
    assert pass[2..] == Scan(parse, y).pass;
    KeptStarts(pass, queue[0]);
  }

  lemma ScanPast(parse: Reader, y: seq<Byte>)
    requires y != [] && y[0] != LESS
    ensures Scan(parse, [ESC, OPEN] + y) == Scan(parse, y).After([], [ESC, OPEN])
  {
    var raw := [ESC, OPEN] + y;
    assert raw[1..] == [OPEN] + y && ([OPEN] + y)[1..] == y;
    assert Scan(parse, [OPEN] + y) == Scan(parse, y).After([], [OPEN]);
    Scan(parse, y).AfterAfter([], [ESC], [], [OPEN]);
  }

  lemma YieldKept(scan: MouseScan)
    ensures var (out, carry) := Settle(scan);
            out.Then(Literal(carry.key)).keys == KeptKeys(scan.pass)
  {
  }

  lemma PassesUnit(parse: Reader, u: Unit, s: seq<Byte>)
    requires IsUnit(parse, u) && IsLiteral(u)
    ensures var pass := Scan(parse, u.bytes + s).pass;
            pass != [] && pass[0] == u.bytes[0] && !IsFocusReport(pass)
  {
    if IsText(u) {
      ScanText(parse, u.bytes, s);
    } else {
      ScanKey(parse, u.bytes, s);
      var pass := Scan(parse, u.bytes + s).pass;
      assert pass == u.bytes + Scan(parse, s).pass;
    }
  }

  /** Such a key comes out behind `ESC [`, which is never where it belongs. */
  lemma TypedIsWrong(parse: Reader, queue: seq<Byte>, r: seq<Byte>, u: Unit, us: seq<Unit>)
    requires Queueable(parse, queue) && queue != [] && queue[0] !in {LESS, FOCUS_IN, FOCUS_OUT}
    ensures Yield(parse, [ESC, OPEN] + queue + r + Encode(us)).keys != Due(queue, u, us).keys
  {
    var ws: seq<Unit> :| Spells(parse, ws, queue);
    var rest := r + Encode(us);
    assert [ESC, OPEN] + queue + r + Encode(us) == [ESC, OPEN] + queue + rest;
    TypedFirst(parse, ws, queue, rest);
    DueStarts(parse, ws, queue, u, us);
  }

  lemma DueStarts(parse: Reader, ws: seq<Unit>, queue: seq<Byte>, u: Unit, us: seq<Unit>)
    requires Spells(parse, ws, queue) && queue != []
    ensures var keys := Due(queue, u, us).keys;
            |keys| >= 3 ==> keys[..3] != [ESC, OPEN, queue[0]]
  {
    LiteralKeys(queue, u, us);
    SpellsTail(parse, ws, queue);
    var rest := Encode(ws[1..]) + u.meaning.keys + Means(us).keys;
    LiteralStarts(parse, ws[0], rest);
    assert Due(queue, u, us).keys == ws[0].bytes + rest;
  }

  lemma LiteralStarts(parse: Reader, u: Unit, rest: seq<Byte>)
    requires IsUnit(parse, u) && IsLiteral(u)
    ensures var keys := u.bytes + rest;
            |keys| >= 3 ==> keys[..3] != [ESC, OPEN, keys[0]]
  {
    var e, keys := u.bytes, u.bytes + rest;
    if |keys| >= 3 {
      assert keys[0] == e[0] && (|e| > 1 ==> keys[1] == e[1]) && (|e| > 2 ==> keys[2] == e[2] && e[2] in e[1..]);
      assert keys[..3][0] == keys[0] && keys[..3][1] == keys[1] && keys[..3][2] == keys[2];
    }
  }

  // ----- Exactly when the overtaken read is right

  lemma NoTerminatorNoCopy(parse: Reader, m: seq<Byte>, queue: seq<Byte>, r: seq<Byte>, u: Unit)
    requires IsUnit(parse, u) && u.bytes == m + r && r != [] && |m| >= 2 && queue != []
    requires (|m| > 2 && m[2] == LESS) || (|m| == 2 && queue[0] == LESS)
    requires forall i :: 0 <= i < |queue| ==> !IsTerminator(queue[i])
    ensures !(u.meaning.keys == [] && Repeats(queue, r))
  {
    if u.meaning.keys == [] && Repeats(queue, r) {
      RepeatsStarts(queue, r);
      CsiShape(parse, m, r, u);
      if IsReport(parse, u) {
        ReportRest(parse, m, r, u);
        LastOfCopy(queue, r);
      }
    }
  }

  lemma LastOfCopy(queue: seq<Byte>, r: seq<Byte>)
    requires Repeats(queue, r) && queue != []
    ensures r != [] && |r| <= |queue| && queue[|r| - 1] == r[|r| - 1]
  {
    assert r == queue[..|r|];
  }

  /** A read comes to what it should exactly if `right`; otherwise keys are missing, changed or stuck. */
  ghost predicate IsExact(parse: Reader, raw: seq<Byte>, due: Out, right: bool) {
    && (Stuck(parse, raw) == [] && Yield(parse, raw).keys == due.keys ==> right)
    && (right ==> Stuck(parse, raw) == [] && Yield(parse, raw) == due)
  }

  lemma MouseExactly(parse: Reader, m: seq<Byte>, queue: seq<Byte>, r: seq<Byte>, u: Unit, us: seq<Unit>)
    requires IsUnit(parse, u) && u.bytes == m + r && r != [] && |m| >= 2 && AllUnits(parse, us)
    requires Queueable(parse, queue) && queue != []
    requires (|m| > 2 && m[2] == LESS) || (|m| == 2 && queue[0] == LESS)
    ensures var raw := m + queue + r + Encode(us);
            IsExact(parse, raw, Due(queue, u, us), u.meaning.keys == [] && Repeats(queue, r))
  {
    var j := FirstIndex(queue, IsTerminator);
    BeginningShape(parse, u, m);
    if j == |queue| {
      NoTerminatorNoCopy(parse, m, queue, r, u);
      Swallowed(parse, m, queue, r, u, us);
    } else {
      var w, s := queue[..j + 1], queue[j + 1..];
      assert w + s == queue;
      var ws :| Spells(parse, ws, queue);
      QueueableSuffix(parse, ws, queue, j + 1);
      OpenBefore(m, queue, j);
      EarlyIsExact(parse, m, w, s, r, u, us);
    }
  }

  lemma OpenBefore(m: seq<Byte>, queue: seq<Byte>, j: nat)
    requires |m| >= 2 && m[0] == ESC && m[1] == OPEN && (forall i :: 3 <= i < |m| ==> !IsTerminator(m[i]))
    requires j < |queue| && IsTerminator(queue[j]) && forall i :: 0 <= i < j ==> !IsTerminator(queue[i])
    requires (|m| > 2 && m[2] == LESS) || (|m| == 2 && queue[0] == LESS)
    ensures var w := queue[..j + 1];
            Open((m + w)[..|m + w| - 1]) && EndsOnce(w) && (|m| == 2 ==> |w| > 1 && w[0] == LESS)
  {
    assert (m + queue[..j + 1])[..|m + queue[..j + 1]| - 1] == m + queue[..j];
  }

  lemma EarlyIsExact(
    parse: Reader, m: seq<Byte>, w: seq<Byte>, s: seq<Byte>, r: seq<Byte>, u: Unit, us: seq<Unit>
  )
    requires IsUnit(parse, u) && u.bytes == m + r && r != [] && |m| >= 2 && AllUnits(parse, us) && Queueable(parse, s)
    requires EndsOnce(w) && Open((m + w)[..|m + w| - 1])
    requires (|m| == 2 ==> |w| > 1 && w[0] == LESS) && (|m| > 2 ==> m[2] == LESS)
    ensures IsExact(parse, m + (w + s) + r + Encode(us), Due(w + s, u, us), u.meaning.keys == [] && Repeats(w + s, r))
  {
    EndsEarly(parse, m, w, s, r, u, us);
    EarlyExactly(parse, m, w, s, r, u, us);
  }

  /**
   Reading all the rest while `queue` is queued and the beginning `m` of a token is held comes to what
   it should exactly if the token is a mouse or focus report and the queued keys happen to be a whole
   number of copies of the bytes that complete it.
   */
  lemma OvertakenExactly(parse: Reader, m: seq<Byte>, queue: seq<Byte>, r: seq<Byte>, u: Unit, us: seq<Unit>)
    requires IsUnit(parse, u) && u.bytes == m + r && r != [] && |m| >= 2 && AllUnits(parse, us)
    requires (|m| > 2 ==> m[2] == LESS) && Queueable(parse, queue) && queue != []
    ensures var raw := m + queue + r + Encode(us);
            IsExact(parse, raw, Due(queue, u, us), u.meaning.keys == [] && Repeats(queue, r))
  {
    CsiShape(parse, m, r, u);
    if |m| > 2 || queue[0] == LESS {
      MouseExactly(parse, m, queue, r, u, us);
    } else {
      assert m == [ESC, OPEN];
      if queue[0] == FOCUS_IN || queue[0] == FOCUS_OUT {
        FocusExactly(parse, queue, r, u, us);
      } else {
        TypedIsWrong(parse, queue, r, u, us);
        if u.meaning.keys == [] && Repeats(queue, r) {
          RepeatsStarts(queue, r);
          ReportOrFocus(parse, r, u);
        }
      }
    }
  }

  lemma ReportOrFocus(parse: Reader, r: seq<Byte>, u: Unit)
    requires IsUnit(parse, u) && u.bytes == [ESC, OPEN] + r && r != [] && u.meaning.keys == []
    ensures r[0] in {LESS, FOCUS_IN, FOCUS_OUT}
  {
    CsiShape(parse, [ESC, OPEN], r, u);
  }
}
