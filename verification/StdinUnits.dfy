/**
 The units of terminal input as byte strings with a meaning, and the proof that the
 decoder delivers that meaning however the bytes are cut into reads and wherever the
 descriptor runs dry between two reads.
 */
module StdinUnits {
  import opened Bytes
  import opened SgrMouse
  import opened StdinScan

  /** Bytes that belong together, and what they mean when they are decoded together. */
  datatype Unit = Unit(bytes: seq<Byte>, meaning: Out) {
    /** A torn unit lost its ESC to a dry read: all of its bytes arrive as keys. */
    function Delivered(torn: bool): Out {
      if torn then Out([], bytes, None) else meaning
    }
  }

  function TextUnit(b: Byte): Unit { Unit([b], Out([], [b], None)) }

  predicate IsText(u: Unit) { |u.bytes| == 1 && u.bytes[0] != ESC && u == TextUnit(u.bytes[0]) }

  /** An ESC and one further byte, or a CSI up to its final byte or too long to be waited for. */
  predicate KeyBytes(e: seq<Byte>) {
    && |e| >= 2 && e[0] == ESC && ESC !in e[1..]
    && (e[1] != OPEN ==> |e| == 2)
    && (e[1] == OPEN ==>
      && |e| > 2 && e[2] != LESS && (IsFinal(e[|e| - 1]) || |e| > 18)
      && forall i :: 2 <= i < |e| - 1 ==> !IsFinal(e[i]))
  }

  predicate IsKey(u: Unit) {
    && KeyBytes(u.bytes)
    && u.meaning == (if IsFocusReport(u.bytes) then Out([], [], Some(u.bytes[2] == FOCUS_IN))
       else Out([], u.bytes, None))
  }

  predicate ReportBytes(e: seq<Byte>) {
    && |e| > 3 && e[0] == ESC && e[1] == OPEN && e[2] == LESS && ESC !in e[1..]
    && IsTerminator(e[|e| - 1]) && forall i :: 3 <= i < |e| - 1 ==> !IsTerminator(e[i])
  }

  predicate IsReport(parse: Reader, u: Unit) {
    && ReportBytes(u.bytes)
    && u.meaning == Out(EventOf(parse, u.bytes[3..|u.bytes| - 1], u.bytes[|u.bytes| - 1]), [], None)
  }

  predicate IsUnit(parse: Reader, u: Unit) { IsText(u) || IsKey(u) || IsReport(parse, u) }

  ghost predicate AllUnits(parse: Reader, us: seq<Unit>) {
    forall i :: 0 <= i < |us| ==> IsUnit(parse, us[i])
  }

  function Encode(us: seq<Unit>): seq<Byte> {
    if us == [] then [] else us[0].bytes + Encode(us[1..])
  }

  /**
   What units starting at stream offset `at` add to `delivered`, when the descriptor ran
   dry at the offsets in `dry`. A unit is torn when that happened right after its first byte.
   */
  ghost function Deliver(delivered: Out, us: seq<Unit>, at: nat, dry: set<nat>): Out
    decreases |us|
  {
    if us == [] then delivered
    else Deliver(delivered.Then(us[0].Delivered(at + 1 in dry)), us[1..], at + |us[0].bytes|, dry)
  }

  /** The bytes of a run, and the offsets at which its dry reads happen. */
  function Input(steps: seq<Step>): seq<Byte> {
    if steps == [] then []
    else steps[0].Bytes() + Input(steps[1..])
  }

  ghost function DryAt(steps: seq<Step>, at: nat): (dry: set<nat>)
    ensures forall d :: d in dry ==> d >= at
    decreases |steps|
  {
    if steps == [] then {}
    else (if steps[0].Idle? then {at} else {}) + DryAt(steps[1..], at + |steps[0].Bytes()|)
  }

  // ----- Sequences of units

  lemma ThenAssociates(a: Out, b: Out, c: Out)
    ensures a.Then(b).Then(c) == a.Then(b.Then(c))
  {
    assert a.events + b.events + c.events == a.events + (b.events + c.events);
    assert a.keys + b.keys + c.keys == a.keys + (b.keys + c.keys);
  }

  lemma {:induction false} EncodeConcat(a: seq<Unit>, b: seq<Unit>)
    ensures Encode(a + b) == Encode(a) + Encode(b)
  {
    if a == [] {
      assert a + b == b;
    } else {
      assert (a + b)[1..] == a[1..] + b;
      EncodeConcat(a[1..], b);
    }
  }

  lemma {:induction false} DeliverConcat(delivered: Out, a: seq<Unit>, b: seq<Unit>, at: nat, dry: set<nat>)
    ensures Deliver(delivered, a + b, at, dry) == Deliver(Deliver(delivered, a, at, dry), b, at + |Encode(a)|, dry)
    decreases |a|
  {
    if a == [] {
      assert a + b == b;
    } else {
      assert (a + b)[1..] == a[1..] + b;
      DeliverConcat(delivered.Then(a[0].Delivered(at + 1 in dry)), a[1..], b, at + |a[0].bytes|, dry);
    }
  }

  /** Bytes that follow a released ESC are read as text. */
  function Texts(bytes: seq<Byte>): seq<Unit> {
    if bytes == [] then [] else [TextUnit(bytes[0])] + Texts(bytes[1..])
  }

  lemma {:induction false} TextsAreUnits(parse: Reader, bytes: seq<Byte>)
    requires ESC !in bytes
    ensures AllUnits(parse, Texts(bytes))
  {
    if bytes != [] {
      assert bytes[0] in bytes;
      TextsAreUnits(parse, bytes[1..]);
    }
  }

  lemma {:induction false} TextsEncode(bytes: seq<Byte>)
    ensures Encode(Texts(bytes)) == bytes
  {
    if bytes != [] {
      TextsEncode(bytes[1..]);
      assert Texts(bytes)[1..] == Texts(bytes[1..]);
      assert [bytes[0]] + bytes[1..] == bytes;
    }
  }

  lemma {:induction false} TextsDeliver(delivered: Out, bytes: seq<Byte>, at: nat, dry: set<nat>)
    ensures Deliver(delivered, Texts(bytes), at, dry) == delivered.Then(Out([], bytes, None))
    decreases |bytes|
  {
    if bytes != [] {
      var us := Texts(bytes);
      assert us[1..] == Texts(bytes[1..]);
      TextsDeliver(delivered.Then(us[0].meaning), bytes[1..], at + 1, dry);
      ThenAssociates(delivered, us[0].meaning, Out([], bytes[1..], None));
      assert [bytes[0]] + bytes[1..] == bytes;
    }
  }

  // ----- One complete unit in front of any bytes

  lemma {:induction false} ScanText(parse: Reader, text: seq<Byte>, s: seq<Byte>)
    requires ESC !in text
    ensures Scan(parse, text + s) == Scan(parse, s).After([], text)
  {
    if text == [] {
      assert text + s == s;
      assert Scan(parse, s).After([], []) == Scan(parse, s);
    } else {
      assert text[0] in text;
      assert (text + s)[1..] == text[1..] + s;
      ScanText(parse, text[1..], s);
      Scan(parse, s).AfterAfter([], [text[0]], [], text[1..]);
      assert [text[0]] + text[1..] == text;
    }
  }

  lemma ScanKey(parse: Reader, e: seq<Byte>, s: seq<Byte>)
    requires |e| >= 2 && e[0] == ESC && ESC !in e[1..]
    requires e[1] == OPEN ==> |e| > 2 && e[2] != LESS
    ensures Scan(parse, e + s) == Scan(parse, s).After([], e)
  {
    var w := e + s;
    assert w[1..] == e[1..] + s;
    assert Scan(parse, w) == Scan(parse, w[1..]).After([], [ESC]);
    ScanText(parse, e[1..], s);
    Scan(parse, s).AfterAfter([], [ESC], [], e[1..]);
    assert [ESC] + e[1..] == e;
  }

  lemma ScanReport(parse: Reader, e: seq<Byte>, s: seq<Byte>)
    requires ReportBytes(e)
    ensures Scan(parse, e + s) == Scan(parse, s).After(EventOf(parse, e[3..|e| - 1], e[|e| - 1]), [])
  {
    var w := e + s;
    assert w[3..] == e[3..] + s;
    var off := FirstIndex(w[3..], IsTerminator);
    assert 3 + off == |e| - 1 by {
      assert w[3..][|e| - 4] == e[|e| - 1];
      assert forall i :: 0 <= i < |e| - 4 ==> w[3..][i] == e[3 + i];
    }
    assert w[3..3 + off] == e[3..|e| - 1] && w[3 + off + 1..] == s;
  }

  lemma NoPartial(w: seq<Byte>)
    requires ESC !in w
    ensures PartialEscape(w) == []
  {
    if w != [] {
      assert w[0] in w;
    }
  }

  lemma PartialAfterText(b: Byte, q: seq<Byte>)
    requires b != ESC
    ensures PartialEscape([b] + q) == PartialEscape(q)
  {
    assert ([b] + q)[1..] == q;
    if ESC !in q {
      NoPartial(q);
    }
  }

  lemma {:induction false} PartialAfterTexts(text: seq<Byte>, q: seq<Byte>)
    requires ESC !in text
    ensures PartialEscape(text + q) == PartialEscape(q)
  {
    if text == [] {
      assert text + q == q;
    } else {
      assert text[0] in text;
      assert text + q == [text[0]] + (text[1..] + q);
      PartialAfterText(text[0], text[1..] + q);
      PartialAfterTexts(text[1..], q);
    }
  }

  lemma PartialAfterKey(e: seq<Byte>, q: seq<Byte>)
    requires KeyBytes(e)
    ensures PartialEscape(e + q) == PartialEscape(q)
  {
    assert (e + q)[1..] == e[1..] + q;
    if ESC in e[1..] + q {
      PartialAfterTexts(e[1..], q);
    } else {
      FinishedKey(e, q);
      assert ESC !in q by {
        assert q == (e[1..] + q)[|e| - 1..];
      }
      NoPartial(q);
    }
  }

  lemma FinishedKey(e: seq<Byte>, q: seq<Byte>)
    requires KeyBytes(e)
    ensures !Unfinished((e + q)[1..])
  {
    var rest := (e + q)[1..];
    assert rest[0] == e[1] && rest[|e| - 2] == e[|e| - 1];
  }

  lemma {:induction false} StripText(text: seq<Byte>, q: seq<Byte>)
    requires ESC !in text
    ensures StripFocus(text + q) == Focus(StripFocus(q).focused, text + StripFocus(q).keys)
  {
    if text == [] {
      assert text + q == q;
    } else {
      assert text[0] in text;
      assert (text + q)[1..] == text[1..] + q;
      StripText(text[1..], q);
      assert [text[0]] + (text[1..] + StripFocus(q).keys) == text + StripFocus(q).keys;
    }
  }

  lemma StripEscape(e: seq<Byte>, q: seq<Byte>)
    requires |e| >= 2 && e[0] == ESC && ESC !in e[1..]
    requires e[1] == OPEN ==> |e| > 2 && !IsFocusReport(e)
    ensures StripFocus(e + q) == Focus(StripFocus(q).focused, e + StripFocus(q).keys)
  {
    var w := e + q;
    assert w[0] == e[0] && w[1] == e[1] && (|e| > 2 ==> w[2] == e[2]);
    assert w[1..] == e[1..] + q;
    StripFirst(w);
    StripText(e[1..], q);
    FirstOf(e, StripFocus(q).keys);
  }

  lemma StripFirst(w: seq<Byte>)
    requires w != [] && !IsFocusReport(w)
    ensures StripFocus(w) == Focus(StripFocus(w[1..]).focused, [w[0]] + StripFocus(w[1..]).keys)
  {
  }

  lemma FirstOf(e: seq<Byte>, tail: seq<Byte>)
    requires e != []
    ensures [e[0]] + (e[1..] + tail) == e + tail
  {
  }

  lemma StripKey(u: Unit, q: seq<Byte>)
    requires IsKey(u)
    ensures StripFocus(u.bytes + q) ==
            Focus(Later(u.meaning.focused, StripFocus(q).focused), u.meaning.keys + StripFocus(q).keys)
  {
    if IsFocusReport(u.bytes) {
      assert |u.bytes| == 3;
      assert (u.bytes + q)[3..] == q;
    } else {
      StripEscape(u.bytes, q);
    }
  }

  // ----- Reading complete units

  lemma SettledAfter(e: seq<Byte>, pass: seq<Byte>)
    requires PartialEscape(e + pass) == PartialEscape(pass)
    ensures Settled(e + pass) == e + Settled(pass)
  {
  }

  lemma SettleAfterPass(u: Unit, scan: MouseScan)
    requires u.meaning.events == []
    requires PartialEscape(u.bytes + scan.pass) == PartialEscape(scan.pass)
    requires var kept := StripFocus(Settled(scan.pass));
             StripFocus(u.bytes + Settled(scan.pass)) ==
             Focus(Later(u.meaning.focused, kept.focused), u.meaning.keys + kept.keys)
    ensures Settle(scan.After([], u.bytes)) == (u.meaning.Then(Settle(scan).0), Settle(scan).1)
  {
    SettledAfter(u.bytes, scan.pass);
  }

  lemma SettleAfterReport(events: seq<MouseEvent>, scan: MouseScan)
    ensures Settle(scan.After(events, [])) == (Out(events, [], None).Then(Settle(scan).0), Settle(scan).1)
  {
    assert [] + scan.pass == scan.pass;
    var kept := StripFocus(Settled(scan.pass));
    assert [] + kept.keys == kept.keys;
  }

  lemma SettleAfterUnit(parse: Reader, u: Unit, s: seq<Byte>)
    requires IsUnit(parse, u)
    ensures Settle(Scan(parse, u.bytes + s)) == (u.meaning.Then(Settle(Scan(parse, s)).0), Settle(Scan(parse, s)).1)
  {
    if IsText(u) {
      ScanText(parse, u.bytes, s);
      PartialAfterText(u.bytes[0], Scan(parse, s).pass);
      StripText(u.bytes, Settled(Scan(parse, s).pass));
      SettleAfterPass(u, Scan(parse, s));
    } else if IsKey(u) {
      ScanKey(parse, u.bytes, s);
      PartialAfterKey(u.bytes, Scan(parse, s).pass);
      StripKey(u, Settled(Scan(parse, s).pass));
      SettleAfterPass(u, Scan(parse, s));
    } else {
      ScanReport(parse, u.bytes, s);
      SettleAfterReport(u.meaning.events, Scan(parse, s));
    }
  }

  /** A decoder that adds to what was delivered so far, and reads `u` first whatever follows it. */
  type Decoder = (Out, seq<Byte>) -> (Out, Carry)

  ghost predicate Peels(f: Decoder, u: Unit) {
    forall delivered, s :: f(delivered, u.bytes + s) == f(delivered.Then(u.meaning), s)
  }

  lemma DeliverUntorn(parse: Reader, delivered: Out, us: seq<Unit>, at: nat, dry: set<nat>)
    requires us != [] && IsUnit(parse, us[0])
    requires forall d :: d in dry ==> d >= at + |us[0].bytes|
    ensures Deliver(delivered, us, at, dry) == Deliver(delivered.Then(us[0].meaning), us[1..], at + |us[0].bytes|, dry)
  {
    assert us[0].Delivered(at + 1 in dry) == us[0].meaning;
  }

  /** Complete units in one read are delivered before whatever follows them. */
  lemma {:induction false} PeelUnits(
    f: Decoder, parse: Reader, delivered: Out, us: seq<Unit>, s: seq<Byte>, at: nat, dry: set<nat>
  )
    requires forall i :: 0 <= i < |us| ==> IsUnit(parse, us[i]) && Peels(f, us[i])
    requires forall d :: d in dry ==> d >= at + |Encode(us)|
    ensures f(delivered, Encode(us) + s) == f(Deliver(delivered, us, at, dry), s)
    decreases |us|
  {
    if us == [] {
      assert Encode(us) + s == s;
    } else {
      var u, rest := us[0], Encode(us[1..]) + s;
      assert Encode(us) + s == u.bytes + rest;
      assert Peels(f, u);
      DeliverUntorn(parse, delivered, us, at, dry);
      PeelUnits(f, parse, delivered.Then(u.meaning), us[1..], s, at + |u.bytes|, dry);
    }
  }

  function ReadOnto(parse: Reader): Decoder {
    (delivered: Out, raw: seq<Byte>) =>
      var (out, carry) := Settle(Scan(parse, raw)); (delivered.Then(out), carry)
  }

  lemma ReadPeels(parse: Reader, u: Unit)
    requires IsUnit(parse, u)
    ensures Peels(ReadOnto(parse), u)
  {
    forall delivered, s ensures ReadOnto(parse)(delivered, u.bytes + s) ==
      ReadOnto(parse)(delivered.Then(u.meaning), s) {
      SettleAfterUnit(parse, u, s);
      ThenAssociates(delivered, u.meaning, Settle(Scan(parse, s)).0);
    }
  }

  lemma ReadUnits(parse: Reader, delivered: Out, us: seq<Unit>, s: seq<Byte>, at: nat, dry: set<nat>)
    requires AllUnits(parse, us)
    requires forall d :: d in dry ==> d >= at + |Encode(us)|
    ensures ReadOnto(parse)(delivered, Encode(us) + s) == ReadOnto(parse)(Deliver(delivered, us, at, dry), s)
  {
    forall i | 0 <= i < |us| ensures Peels(ReadOnto(parse), us[i]) {
      ReadPeels(parse, us[i]);
    }
    PeelUnits(ReadOnto(parse), parse, delivered, us, s, at, dry);
  }
}
