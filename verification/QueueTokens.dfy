/** The loop over printed tokens: what comes out, and exactly when a queue does harm. */
module QueueTokens {
  import opened Bytes
  import opened SgrMouse
  import opened StdinScan
  import opened StdinUnits
  import opened StdinFragments
  import opened StdinTokens
  import opened TailQueue
  import opened QueueRuns
  import opened Overtaking
  import opened OvertakenRuns

  /** The loop that reads terminal input for a given taker. */
  function Reading<S>(take: Taker<S>, taker: S, steps: seq<Step>): Loop<S> {
    RunLoop(Decoding(ParseSgrMouse), take, Loop(NOTHING, EMPTY, taker), steps)
  }

  ghost predicate NothingOvertaken<S>(take: Taker<S>, taker: S, steps: seq<Step>) {
    InTurn(Decoding(ParseSgrMouse), take, Loop(NOTHING, EMPTY, taker), steps)
  }

  /** Where dry reads handed over an ESC with nothing behind it. */
  ghost function EscapesIn<S>(take: Taker<S>, taker: S, steps: seq<Step>): set<nat> {
    EscapesGoAt(Decoding(ParseSgrMouse), take, Loop(NOTHING, EMPTY, taker), steps, 0)
  }

  /**
   All tokens came through: nothing is stuck in the mouse buffer, and what was delivered or queued is what
   they mean.
   */
  ghost predicate Through<S>(s: Loop<S>, ts: seq<Token>) {
    s.carry.mouse == [] && InAll(s) == Meaning(ts)
  }

  /**
   Whoever takes the keys and however many it gives back: if no read overtakes queued keys, all tokens
   come through exactly if no dry read handed over the lone ESC of a mouse or focus report.
   */
  lemma QueueRoundTrip<S(!new)>(ts: seq<Token>, take: Taker<S>, taker: S, steps: seq<Step>)
    requires AllWellFormed(ts) && Input(steps) == Print(ts) && NothingOvertaken(take, taker, steps)
    ensures Through(Reading(take, taker, steps), ts) <==> !TearsReport(ts, 0, EscapesIn(take, taker, steps))
  {
    TokensAreUnits(ts);
    RunDelivers(ParseSgrMouse, take, taker, Units(ts), steps);
    var dry := EscapesIn(take, taker, steps);
    if TearsReport(ts, 0, dry) {
      TornAddsKeys(NOTHING, NOTHING, ts, 0, dry);
    } else {
      UntornIsUnharmed(NOTHING, ts, 0, dry);
    }
  }

  /** The same where dry reads may have torn tokens: they came through as keys. */
  ghost predicate ThroughTorn<S>(s: Loop<S>, ts: seq<Token>, dry: set<nat>) {
    s.carry.mouse == [] && InAll(s) == Deliver(NOTHING, Units(ts), 0, dry)
  }

  /**
   If one read overtakes the queued keys, and the run is undisturbed after it, all tokens come through, torn
   only where dry reads before it tore them, exactly if the token whose beginning is held is a mouse or focus
   report and the queued keys happen to be a whole number of copies of the bytes that complete it.
   */
  lemma OvertakenRoundTrip<S(!new)>(
    ts: seq<Token>, take: Taker<S>, taker: S, steps: seq<Step>, c: seq<Byte>, more: seq<Step>
  ) returns (u: Unit, r: seq<Byte>)
    requires AllWellFormed(ts) && Input(steps) + (c + Input(more)) == Print(ts)
    requires NothingOvertaken(take, taker, steps) && Overtakes(Reading(take, taker, steps), Chunk(c))
    requires Undisturbed(ParseSgrMouse, take,
                         Do(Decoding(ParseSgrMouse), take, Reading(take, taker, steps), Chunk(c)), more)
    ensures var s := Reading(take, taker, steps);
            var end := RunLoop(Decoding(ParseSgrMouse), take, Do(Decoding(ParseSgrMouse), take, s, Chunk(c)), more);
            && u in Units(ts) && u.bytes == s.carry.mouse + r && r <= c + Input(more)
            && (ThroughTorn(end, ts, EscapesIn(take, taker, steps)) <==>
                u.meaning.keys == [] && Repeats(s.carry.key, r))
  {
    var s, rest := Reading(take, taker, steps), c + Input(more);
    var spot := Halfway(ts, take, taker, steps, rest);
    u, r := HeldToken(ParseSgrMouse, s.delivered, s.carry, spot, rest);
    assert |u.bytes| > 1 && !IsText(u);
    DueInAll(s.delivered, spot, u);
    OvertakenRunExactly(ParseSgrMouse, take, s, c, r, u, spot.unread[1..], more);
  }

  /** At any moment before that: where the run stands, and that nothing is lost yet. */
  lemma Halfway<S(!new)>(
    ts: seq<Token>, take: Taker<S>, taker: S, steps: seq<Step>, rest: seq<Byte>
  ) returns (spot: Spot)
    requires AllWellFormed(ts) && Input(steps) + rest == Print(ts) && NothingOvertaken(take, taker, steps)
    ensures var s := Reading(take, taker, steps);
            && Tracks(ParseSgrMouse, s.delivered, s.carry, spot, rest) && NewFrom(spot.unread, Units(ts))
            && Total(PointOf(s.delivered, spot), {}) == Deliver(NOTHING, Units(ts), 0, EscapesIn(take, taker, steps))
  {
    TokensAreUnits(ts);
    spot := RunTracksUnits(ParseSgrMouse, take, taker, Units(ts), steps, rest);
  }

  /** The token whose beginning is in the mouse buffer. */
  lemma HeldToken(
    parse: Reader, delivered: Out, carry: Carry, spot: Spot, rest: seq<Byte>
  ) returns (u: Unit, r: seq<Byte>)
    requires Tracks(parse, delivered, carry, spot, rest) && carry.mouse != [] && carry.key != []
    ensures spot.unread != [] && u == spot.unread[0] && IsUnit(parse, u) && AllUnits(parse, spot.unread[1..])
    ensures u.bytes == carry.mouse + r && r != [] && |carry.mouse| >= 2 &&
            (|carry.mouse| > 2 ==> carry.mouse[2] == LESS)
    ensures carry.key == spot.queue && Queueable(parse, carry.key) && rest == r + Encode(spot.unread[1..])
  {
    var m := carry.mouse;
    assert spot.held.key == [] && spot.held.Bytes() == m + [] == m;
    assert spot.queue + [] == spot.queue;
    u := spot.unread[0];
    r := u.bytes[|m|..];
    RestOf(m, u.bytes, rest, Encode(spot.unread[1..]));
  }

  lemma RestOf(m: seq<Byte>, e: seq<Byte>, rest: seq<Byte>, z: seq<Byte>)
    requires StrictPrefix(m, e) && m + rest == e + z
    ensures e == m + e[|m|..] && rest == e[|m|..] + z
  {
    assert e[..|m|] == m;
    assert m + (e[|m|..] + z) == e + z;
    SameSplit(m, rest, m, e[|m|..] + z);
  }

  lemma DueInAll(delivered: Out, spot: Spot, u: Unit)
    requires spot.unread != [] && u == spot.unread[0] && |spot.held.Bytes()| <= spot.pos
    ensures Total(PointOf(delivered, spot), {}) == delivered.Then(Due(spot.queue, u, spot.unread[1..]))
  {
    DeliverMeans(delivered.Then(Literal(spot.queue)), spot.unread, spot.pos - |spot.held.Bytes()|);
    ThenAssociates(delivered, Literal(spot.queue), Means(spot.unread));
    ThenAssociates(Literal(spot.queue), u.meaning, Means(spot.unread[1..]));
  }
}
