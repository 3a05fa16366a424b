/**
 Terminal input as the user means it: text, escaped keys, CSI keys (section 5.4 of
 ECMA-48) and SGR mouse reports. The decoder delivers exactly the tokens that were
 printed, however their bytes are cut into reads.
 */
module StdinTokens {
  import opened Bytes
  import opened SgrMouse
  import opened StdinScan
  import opened StdinUnits
  import opened StdinFragments

  datatype Token =
    | Plain(byte: Byte)
    | Escaped(byte: Byte)
    | CsiKey(params: seq<Byte>, final: Byte)
    | Report(button: nat, x: nat, y: nat, release: bool)
  {
    predicate WellFormed() {
      match this
      case Plain(b) => b != ESC
      case Escaped(b) => b != ESC && b != OPEN
      case CsiKey(params, final) =>
        && IsFinal(final)
        && (forall i :: 0 <= i < |params| ==> 0x20 <= params[i] <= 0x3f)
        && (params != [] ==> params[0] != LESS)
      case Report(button, x, y, _) => button <= U32_MAX && x <= U16_MAX && y <= U16_MAX
    }

    function Print(): seq<Byte> {
      match this
      case Plain(b) => [b]
      case Escaped(b) => [ESC, b]
      case CsiKey(params, final) => [ESC, OPEN] + params + [final]
      case Report(button, x, y, release) => [ESC, OPEN, LESS] + ReportBody(button, x, y) + [Terminator(release)]
    }

    predicate IsFocus() {
      CsiKey? && params == [] && (final == FOCUS_IN || final == FOCUS_OUT)
    }

    /** Reports become mouse events, focus reports a focus state, everything else its own bytes. */
    function Meaning(): Out {
      if Report? then
        match Classify(button, Terminator(release))
        case None => NOTHING
        case Some(kind) => Out([MouseEvent(x, y, kind)], [], None)
      else if IsFocus() then Out([], [], Some(final == FOCUS_IN))
      else Out([], Print(), None)
    }
  }

  function Terminator(release: bool): Byte { if release then RELEASE else PRESS }

  function Units(ts: seq<Token>): (us: seq<Unit>)
    ensures |us| == |ts|
    ensures forall i :: 0 <= i < |ts| ==> us[i] == Unit(ts[i].Print(), ts[i].Meaning())
  {
    if ts == [] then [] else [Unit(ts[0].Print(), ts[0].Meaning())] + Units(ts[1..])
  }

  ghost predicate AllWellFormed(ts: seq<Token>) {
    forall i :: 0 <= i < |ts| ==> ts[i].WellFormed()
  }

  /** The bytes a terminal sends for the tokens. */
  function Print(ts: seq<Token>): seq<Byte> { Encode(Units(ts)) }

  /** What the tokens mean, in order. */
  ghost function Meaning(ts: seq<Token>): Out { Deliver(NOTHING, Units(ts), 0, {}) }

  // ----- Tokens are units

  lemma ReportIsUnit(t: Token)
    requires t.WellFormed() && t.Report?
    ensures IsReport(ParseSgrMouse, Unit(t.Print(), t.Meaning()))
  {
    var e, body := t.Print(), ReportBody(t.button, t.x, t.y);
    assert e[3..|e| - 1] == body;
    assert forall i :: 0 <= i < |body| ==> body[i] != ESC && !IsTerminator(body[i]);
    assert ReportBytes(e);
    ReportReadsBack(t.button, t.x, t.y, Terminator(t.release));
  }

  lemma KeyIsUnit(t: Token)
    requires t.WellFormed() && !t.Report? && !t.Plain?
    ensures IsKey(Unit(t.Print(), t.Meaning()))
  {
    var e := t.Print();
    if t.CsiKey? {
      assert forall i :: 2 <= i < |e| - 1 ==> e[i] == t.params[i - 2];
    }
    assert KeyBytes(e);
  }

  lemma TokensAreUnits(ts: seq<Token>)
    requires AllWellFormed(ts)
    ensures AllUnits(ParseSgrMouse, Units(ts))
  {
    forall i | 0 <= i < |ts| ensures IsUnit(ParseSgrMouse, Units(ts)[i]) {
      if ts[i].Report? {
        ReportIsUnit(ts[i]);
      } else if !ts[i].Plain? {
        KeyIsUnit(ts[i]);
      }
    }
  }

  // ----- The decoder inverts printing

  function Decode(steps: seq<Step>): (Out, Carry) {
    Run(Decoding(ParseSgrMouse), NOTHING, EMPTY, steps)
  }

  /**
   At every moment of every run over printed tokens, at most one carry buffer is non-empty, it
   is the unread beginning of one unit, and what was delivered is exactly what the tokens mean
   up to the units that are still unread.
   */
  lemma CarryIsUnreadBeginning(ts: seq<Token>, steps: seq<Step>, rest: seq<Byte>) returns (unread: seq<Unit>)
    requires AllWellFormed(ts) && Input(steps) + rest == Print(ts)
    ensures Underway(Decode(steps), Units(ts), unread, |Input(steps)|, rest, DryAt(steps, 0))
  {
    TokensAreUnits(ts);
    DecodingSound(ParseSgrMouse);
    unread := RunFromStart(ParseSgrMouse, Decoding(ParseSgrMouse), Units(ts), steps, rest);
  }

  /** Every run that reads all of the printed bytes delivers every token, torn where a dry read tore it. */
  lemma DecodeDelivers(ts: seq<Token>, steps: seq<Step>)
    requires AllWellFormed(ts) && Input(steps) == Print(ts)
    ensures Decode(steps) == (Deliver(NOTHING, Units(ts), 0, DryAt(steps, 0)), EMPTY)
  {
    TokensAreUnits(ts);
    DecodingSound(ParseSgrMouse);
    RunToEnd(ParseSgrMouse, Decoding(ParseSgrMouse), Units(ts), steps);
  }

  lemma {:induction false} ReadsAreNeverDry(steps: seq<Step>, at: nat)
    requires forall i :: 0 <= i < |steps| ==> steps[i].Chunk?
    ensures DryAt(steps, at) == {}
    decreases |steps|
  {
    if steps != [] {
      ReadsAreNeverDry(steps[1..], at + |steps[0].Bytes()|);
    }
  }

  /** The round trip: however the printed bytes are cut into reads, the tokens come back. */
  lemma FragmentationRoundTrip(ts: seq<Token>, steps: seq<Step>)
    requires AllWellFormed(ts) && Input(steps) == Print(ts)
    requires forall i :: 0 <= i < |steps| ==> steps[i].Chunk?
    ensures Decode(steps) == (Meaning(ts), EMPTY)
  {
    DecodeDelivers(ts, steps);
    ReadsAreNeverDry(steps, 0);
  }

  // ----- Exactly when a dry read does damage

  /** A dry read falls right after the ESC of a mouse or focus report. */
  ghost predicate TearsReport(ts: seq<Token>, at: nat, dry: set<nat>)
    decreases |ts|
  {
    && ts != []
    && (|| (at + 1 in dry && (ts[0].Report? || ts[0].IsFocus()))
        || TearsReport(ts[1..], at + |ts[0].Print()|, dry))
  }

  lemma {:induction false} UntornIsUnharmed(delivered: Out, ts: seq<Token>, at: nat, dry: set<nat>)
    requires !TearsReport(ts, at, dry)
    ensures Deliver(delivered, Units(ts), at, dry) == Deliver(delivered, Units(ts), at, {})
    decreases |ts|
  {
    if ts != [] {
      var us := Units(ts);
      assert us[1..] == Units(ts[1..]);
      assert us[0].Delivered(at + 1 in dry) == us[0].Delivered(false);
      UntornIsUnharmed(delivered.Then(us[0].Delivered(false)), ts[1..], at + |ts[0].Print()|, dry);
    }
  }

  lemma {:induction false} TornAddsKeys(d1: Out, d2: Out, ts: seq<Token>, at: nat, dry: set<nat>)
    requires |d1.keys| >= |d2.keys|
    requires AllWellFormed(ts)
    ensures var torn, whole := Deliver(d1, Units(ts), at, dry), Deliver(d2, Units(ts), at, {});
            && |torn.keys| >= |whole.keys|
            && (|d1.keys| > |d2.keys| || TearsReport(ts, at, dry) ==> |torn.keys| > |whole.keys|)
    decreases |ts|
  {
    if ts != [] {
      var us := Units(ts);
      assert us[1..] == Units(ts[1..]);
      var first := us[0].Delivered(at + 1 in dry);
      TornFirst(ts[0], at + 1 in dry);
      TornAddsKeys(d1.Then(first), d2.Then(us[0].meaning), ts[1..], at + |ts[0].Print()|, dry);
    }
  }

  lemma TornFirst(t: Token, torn: bool)
    requires t.WellFormed()
    ensures var u := Unit(t.Print(), t.Meaning());
            && |u.Delivered(torn).keys| >= |u.meaning.keys|
            && (torn && (t.Report? || t.IsFocus()) ==> |u.Delivered(torn).keys| > |u.meaning.keys|)
  {
  }

  /** The tokens come back exactly if no dry read fell right after the ESC of a mouse or focus report. */
  lemma RoundTripIffNothingTorn(ts: seq<Token>, steps: seq<Step>)
    requires AllWellFormed(ts) && Input(steps) == Print(ts)
    ensures Decode(steps) == (Meaning(ts), EMPTY) <==> !TearsReport(ts, 0, DryAt(steps, 0))
  {
    DecodeDelivers(ts, steps);
    if TearsReport(ts, 0, DryAt(steps, 0)) {
      TornAddsKeys(NOTHING, NOTHING, ts, 0, DryAt(steps, 0));
    } else {
      UntornIsUnharmed(NOTHING, ts, 0, DryAt(steps, 0));
    }
  }

  /** The smallest failure: a report whose ESC arrives alone before a dry read is typed as keys. */
  lemma LoneEscapeTears(t: Token)
    requires t.WellFormed() && (t.Report? || t.IsFocus())
    ensures var steps := [Chunk([ESC]), Idle, Chunk(t.Print()[1..])];
            Input(steps) == Print([t]) && Decode(steps) == (Out([], t.Print(), None), EMPTY)
  {
    var steps := [Chunk([ESC]), Idle, Chunk(t.Print()[1..])];
    TearingSteps(t.Print()[1..]);
    PrintOne(t);
    assert [ESC] + t.Print()[1..] == t.Print();
    DecodeDelivers([t], steps);
    var u := Unit(t.Print(), t.Meaning());
    assert NOTHING.Then(u.Delivered(true)) == Out([], t.Print(), None);
  }

  lemma PrintOne(t: Token)
    ensures Print([t]) == t.Print() && Units([t]) == [Unit(t.Print(), t.Meaning())]
  {
    var us := Units([t]);
    assert us == [Unit(t.Print(), t.Meaning())] && us[1..] == [];
    assert Encode([]) == [] && us[0].bytes + [] == us[0].bytes;
    assert Encode(us) == us[0].bytes + Encode(us[1..]);
  }

  lemma TearingSteps(tail: seq<Byte>)
    ensures Input([Chunk([ESC]), Idle, Chunk(tail)]) == [ESC] + tail
    ensures 1 in DryAt([Chunk([ESC]), Idle, Chunk(tail)], 0)
  {
    var steps := [Chunk([ESC]), Idle, Chunk(tail)];
    assert steps[1..] == [Idle, Chunk(tail)] && steps[1..][1..] == [Chunk(tail)] && [Chunk(tail)][1..] == [];
    assert Input([Chunk(tail)]) == tail;
  }

  // ----- The focus that is left behind

  lemma {:induction false} FocusStays(delivered: Out, ts: seq<Token>, at: nat)
    requires forall k :: 0 <= k < |ts| ==> !ts[k].IsFocus()
    ensures Deliver(delivered, Units(ts), at, {}).focused == delivered.focused
    decreases |ts|
  {
    if ts != [] {
      var us := Units(ts);
      assert us[1..] == Units(ts[1..]) && us[0].Delivered(false).focused == None;
      FocusStays(delivered.Then(us[0].Delivered(false)), ts[1..], at + |us[0].bytes|);
    }
  }

  lemma {:induction false} UnitsConcat(a: seq<Token>, b: seq<Token>)
    ensures Units(a + b) == Units(a) + Units(b)
    decreases |a|
  {
    if a == [] {
      assert a + b == b;
    } else {
      assert (a + b)[0] == a[0] && (a + b)[1..] == a[1..] + b;
      UnitsConcat(a[1..], b);
    }
  }

  lemma UnitsThree(a: seq<Token>, t: Token, b: seq<Token>)
    ensures Units(a + [t] + b) == Units(a) + [Unit(t.Print(), t.Meaning())] + Units(b)
  {
    UnitsConcat(a + [t], b);
    UnitsConcat(a, [t]);
    PrintOne(t);
  }

  /** The focus after a token sequence is that of its last focus report. */
  lemma LastFocusCounts(a: seq<Token>, t: Token, b: seq<Token>)
    requires t.IsFocus() && forall k :: 0 <= k < |b| ==> !b[k].IsFocus()
    ensures Meaning(a + [t] + b).focused == Some(t.final == FOCUS_IN)
  {
    var u := Unit(t.Print(), t.Meaning());
    UnitsThree(a, t, b);
    DeliverConcat(NOTHING, Units(a) + [u], Units(b), 0, {});
    DeliverConcat(NOTHING, Units(a), [u], 0, {});
    var before := Deliver(NOTHING, Units(a), 0, {});
    assert [u][1..] == [];
    FocusStays(before.Then(u.meaning), b, |Encode(Units(a) + [u])|);
  }
}
