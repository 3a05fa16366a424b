/** Bracketed paste: pasted bytes reach the pane literally, whatever prefixes they contain. */
module BracketedPaste {
  import opened Bytes
  import opened KeyBindings
  import opened PrefixKeys
  import opened PrefixLaws
  import opened QuickActions

  const START: seq<Byte> := [0x1b, 0x5b, 0x32, 0x30, 0x30, 0x7e]
  const END: seq<Byte> := [0x1b, 0x5b, 0x32, 0x30, 0x31, 0x7e]

  datatype Matcher = Matcher(pasting: bool, matched: nat)

  /** Whether a paste is open, and how much of the next delimiter has been read. */
  type Paste = m: Matcher | m.matched < 6 witness Matcher(false, 0)

  const IDLE: Paste := Matcher(false, 0)
  const OPENED: Paste := Matcher(true, 0)

  /** One raw byte: the new state, and whether the byte belongs to a paste or its delimiters. */
  function ObserveByte(p: Paste, b: Byte): (Paste, bool) {
    var marker := if p.pasting then END else START;
    var next: Paste :=
      if b != marker[p.matched] then Matcher(p.pasting, if b == ESC then 1 else 0)
      else if p.matched + 1 == 6 then Matcher(!p.pasting, 0)
      else Matcher(p.pasting, p.matched + 1);
    (next, p.pasting || next.pasting || next.matched != 0)
  }

  function Observing(): Observer<Paste> { ObserveByte }

  // ----- The matcher finds the first end delimiter

  predicate EndsWith(w: seq<Byte>, m: seq<Byte>) { |m| <= |w| && w[|w| - |m|..] == m }

  lemma EndsWithSnoc(w: seq<Byte>, b: Byte, n: nat)
    requires 0 < n <= 6
    ensures EndsWith(w + [b], END[..n]) <==> EndsWith(w, END[..n - 1]) && b == END[n - 1]
  {
    var m, v := END[..n], w + [b];
    if n <= |v| {
      assert m == END[..n - 1] + [END[n - 1]];
      assert v[|v| - n..] == w[|w| - (n - 1)..] + [b];
      if v[|v| - n..] == m {
        assert v[|v| - n..][..n - 1] == m[..n - 1] && v[|v| - n..][n - 1] == m[n - 1];
        assert v[|v| - n..][..n - 1] == w[|w| - (n - 1)..] && m[..n - 1] == END[..n - 1];
      }
    }
  }

  /** The delimiter has no proper border: two of its beginnings end the same text only trivially. */
  lemma NoBorder(w: seq<Byte>, j: nat, k: nat)
    requires 0 < j < k <= 6 && EndsWith(w, END[..k])
    ensures !EndsWith(w, END[..j])
  {
    assert w[|w| - j..][0] == w[|w| - j] == w[|w| - k..][k - j] == END[k - j];
    assert END[..j][0] == ESC != END[k - j];
  }

  /** `k` bytes of the delimiter, and no more, end the text. */
  ghost predicate Longest(w: seq<Byte>, k: nat) {
    k <= 6 && EndsWith(w, END[..k]) && forall n :: k < n <= 6 ==> !EndsWith(w, END[..n])
  }

  lemma LongestGrows(w: seq<Byte>, b: Byte, k: nat)
    requires k < 6 && Longest(w, k)
    ensures Longest(w + [b], if b == END[k] then k + 1 else if b == ESC then 1 else 0)
  {
    var k' := if b == END[k] then k + 1 else if b == ESC then 1 else 0;
    if k' > 0 {
      assert k' == 1 ==> END[..0] == [] && EndsWith(w, []);
      EndsWithSnoc(w, b, k');
    }
    assert EndsWith(w + [b], END[..0]);
    forall n | k' < n <= 6 ensures !EndsWith(w + [b], END[..n]) {
      EndsWithSnoc(w, b, n);
      if 0 < n - 1 < k {
        NoBorder(w, n - 1, k);
      }
    }
  }

  lemma TrackStep(p: Paste, w: seq<Byte>, b: Byte)
    requires p.pasting && Longest(w, p.matched)
    ensures var next := ObserveByte(p, b).0;
            if EndsWith(w + [b], END) then next == IDLE else next.pasting && Longest(w + [b], next.matched)
  {
    LongestGrows(w, b, p.matched);
    assert END[..6] == END;
  }

  ghost predicate Unended(w: seq<Byte>) {
    forall n :: 0 <= n <= |w| ==> !EndsWith(w[..n], END)
  }

  /** Inside a paste the matcher has read exactly the longest beginning of the delimiter. */
  lemma {:induction false} PasteTracksDelimiter(w: seq<Byte>)
    requires Unended(w)
    ensures var p := ObserveAll<Paste>(Observing(), OPENED, w);
            p.pasting && Longest(w, p.matched)
  {
    if w == [] {
      assert Longest(w, 0);
    } else {
      var v, b := w[..|w| - 1], w[|w| - 1];
      assert w == v + [b] && w[..|w|] == w;
      UnendedPrefix(w, |w| - 1);
      PasteTracksDelimiter(v);
      ObserveConcat<Paste>(Observing(), OPENED, v, b);
      TrackStep(ObserveAll<Paste>(Observing(), OPENED, v), v, b);
    }
  }

  lemma UnendedPrefix(w: seq<Byte>, k: nat)
    requires Unended(w) && k <= |w|
    ensures Unended(w[..k])
  {
    forall n | 0 <= n <= k ensures !EndsWith(w[..k][..n], END) {
      assert w[..k][..n] == w[..n];
    }
  }

  // ----- A pasted text is literal

  /** Every byte belongs to a paste or its delimiters. */
  ghost predicate AllPasted<P>(observe: Observer<P>, paste: P, bytes: seq<Byte>)
    decreases |bytes|
  {
    bytes != [] ==> observe(paste, bytes[0]).1 && AllPasted(observe, observe(paste, bytes[0]).0, bytes[1..])
  }

  lemma {:induction false} PastedIsLiteral<P>(
    observe: Observer<P>, effects: Effects, prefix: Byte, state: State<P>, bytes: seq<Byte>
  )
    requires AllPasted(observe, state.paste, bytes)
    ensures Run(observe, effects, prefix, state, bytes) ==
            Outcome(state.(paste := ObserveAll(observe, state.paste, bytes)), Keys(bytes), None, |bytes|)
    decreases |bytes|
  {
    if bytes != [] {
      var next := observe(state.paste, bytes[0]).0;
      PastedIsLiteral(observe, effects, prefix, state.(paste := next), bytes[1..]);
      assert Keys(bytes) == [Key(bytes[0])] + Keys(bytes[1..]);
    }
  }

  lemma {:induction false} PastedHidesPrefix<P>(
    observe: Observer<P>, prefix: Byte, doubled: bool, paste: P, bytes: seq<Byte>
  )
    requires AllPasted(observe, paste, bytes)
    ensures FirstPrefix(observe, prefix, doubled, paste, bytes) == None
    decreases |bytes|
  {
    if bytes != [] {
      PastedHidesPrefix(observe, prefix, doubled, observe(paste, bytes[0]).0, bytes[1..]);
    }
  }

  lemma {:induction false} AllPastedConcat<P>(observe: Observer<P>, paste: P, u: seq<Byte>, v: seq<Byte>)
    requires AllPasted(observe, paste, u) && AllPasted(observe, ObserveAll(observe, paste, u), v)
    ensures AllPasted(observe, paste, u + v)
    ensures ObserveAll(observe, paste, u + v) == ObserveAll(observe, ObserveAll(observe, paste, u), v)
    decreases |u|
  {
    if u == [] {
      assert u + v == v;
    } else {
      assert (u + v)[1..] == u[1..] + v;
      AllPastedConcat(observe, observe(paste, u[0]).0, u[1..], v);
    }
  }

  /** The opening delimiter opens the paste, and every byte of it is held back from the shortcuts. */
  lemma StartOpens()
    ensures AllPasted<Paste>(Observing(), IDLE, START)
    ensures ObserveAll<Paste>(Observing(), IDLE, START) == OPENED
  {
    StartFrom(0);
    assert START[0..] == START;
  }

  lemma {:induction false} StartFrom(i: nat)
    requires i < 6
    ensures AllPasted<Paste>(Observing(), Matcher(false, i), START[i..])
    ensures ObserveAll<Paste>(Observing(), Matcher(false, i), START[i..]) == OPENED
    decreases 6 - i
  {
    assert START[i..][1..] == START[i + 1..];
    if i < 5 {
      StartFrom(i + 1);
    } else {
      assert START[6..] == [];
    }
  }

  lemma {:induction false} InsideIsPasted(w: seq<Byte>)
    requires Unended(w)
    ensures AllPasted<Paste>(Observing(), OPENED, w)
  {
    if w != [] {
      var v, b := w[..|w| - 1], w[|w| - 1];
      UnendedPrefix(w, |w| - 1);
      InsideIsPasted(v);
      PastedStep(v, b);
      assert w == v + [b];
    }
  }

  lemma PastedStep(v: seq<Byte>, b: Byte)
    requires Unended(v) && AllPasted<Paste>(Observing(), OPENED, v)
    ensures AllPasted<Paste>(Observing(), OPENED, v + [b])
  {
    PasteTracksDelimiter(v);
    var p := ObserveAll<Paste>(Observing(), OPENED, v);
    assert [b][1..] == [];
    assert AllPasted<Paste>(Observing(), p, [b]);
    AllPastedConcat<Paste>(Observing(), OPENED, v, [b]);
  }

  ghost predicate Contains(text: seq<Byte>, m: seq<Byte>) {
    exists i :: OccursAt(text, m, i)
  }

  ghost predicate OccursAt(text: seq<Byte>, m: seq<Byte>, i: int) {
    0 <= i <= |text| - |m| && text[i..i + |m|] == m
  }

  /** A text without the delimiter stays open until the delimiter that follows it is complete. */
  lemma OpenUntilDelimiter(body: seq<Byte>)
    requires !Contains(body, END)
    ensures Unended((body + END)[..|body| + 5])
  {
    var w := (body + END)[..|body| + 5];
    forall n | 0 <= n <= |w| ensures !EndsWith(w[..n], END) {
      if n <= |body| {
        assert w[..n] == body[..n];
        assert n >= 6 ==> body[..n][n - 6..] == body[n - 6..n] && !OccursAt(body, END, n - 6);
      } else {
        assert w[..n] == body + END[..n - |body|];
        assert EndsWith(w[..n], END[..n - |body|]);
        if EndsWith(w[..n], END[..6]) {
          NoBorder(w[..n], n - |body|, 6);
        }
        assert END[..6] == END;
      }
    }
  }

  lemma DelimiterCloses(body: seq<Byte>)
    requires !Contains(body, END)
    ensures AllPasted<Paste>(Observing(), OPENED, body + END)
    ensures ObserveAll<Paste>(Observing(), OPENED, body + END) == IDLE
  {
    var w := body + END;
    var v, b := w[..|w| - 1], w[|w| - 1];
    assert w == v + [b];
    OpenUntilDelimiter(body);
    InsideIsPasted(v);
    PastedStep(v, b);
    PasteTracksDelimiter(v);
    TrackStep(ObserveAll<Paste>(Observing(), OPENED, v), v, b);
    ObserveConcat<Paste>(Observing(), OPENED, v, b);
    assert w[|w| - 6..] == END;
  }

  /**
   A bracketed paste is delivered literally: no shortcut runs, no prefix is consumed, the picker
   stays closed and the key state is what it was, for every text that does not itself contain the
   closing delimiter, in plain and nested clients, with a prefix pending or not.
   */
  lemma PasteIsLiteral(effects: Effects, prefix: Byte, state: State<Paste>, body: seq<Byte>)
    requires state.paste == IDLE && !Contains(body, END)
    ensures var paste := START + (body + END);
            Run<Paste>(Observing(), effects, prefix, state, paste) == Outcome(state, Keys(paste), None, |paste|)
    ensures forall doubled :: FirstPrefix<Paste>(Observing(), prefix, doubled, IDLE, START + (body + END)) == None
  {
    var paste := START + (body + END);
    StartOpens();
    DelimiterCloses(body);
    AllPastedConcat<Paste>(Observing(), IDLE, START, body + END);
    PastedIsLiteral<Paste>(Observing(), effects, prefix, state, paste);
    forall doubled ensures FirstPrefix<Paste>(Observing(), prefix, doubled, IDLE, paste) == None {
      PastedHidesPrefix<Paste>(Observing(), prefix, doubled, IDLE, paste);
    }
  }

  // ----- What the shipped observer means for a nested client

  /** Outside a paste only ESC is claimed, and a byte that is not claimed leaves the matcher idle. */
  lemma ClaimsOnlyEscape(p: Paste, b: Byte)
    ensures ObserveByte(IDLE, b).1 <==> b == ESC
    ensures !ObserveByte(p, b).1 ==> ObserveByte(p, b).0 == IDLE
  {
  }

  /** No prefix that a nested client holds, or is armed by, is directly followed by ESC. */
  ghost predicate NoEscapeBehindPrefix(prefix: Byte, state: State<Paste>, bytes: seq<Byte>)
    decreases |bytes|
  {
    bytes != [] ==>
      && !((state.pending || state.outer) && bytes[0] == ESC)
      && NoEscapeBehindPrefix(prefix, Onward<Paste>(Observing(), prefix, state, bytes[0]), bytes[1..])
  }

  /** With the shipped observer, prefixes stay apart exactly if none is directly followed by ESC. */
  lemma {:induction false} ApartExactlyWhen(prefix: Byte, state: State<Paste>, bytes: seq<Byte>)
    requires state.nested && (state.pending || state.outer ==> state.paste == IDLE)
    ensures HeldApart<Paste>(Observing(), prefix, state, bytes) <==> NoEscapeBehindPrefix(prefix, state, bytes)
    decreases |bytes|
  {
    if bytes != [] {
      ClaimsOnlyEscape(state.paste, bytes[0]);
      if !((state.pending || state.outer) && bytes[0] == ESC) {
        ApartExactlyWhen(prefix, Onward<Paste>(Observing(), prefix, state, bytes[0]), bytes[1..]);
      }
    }
  }

  /** So a nested client that is not armed delivers its bytes in order exactly if no held prefix is followed by ESC. */
  lemma NestedOrderExactlyWhen(effects: Effects, prefix: Byte, bytes: seq<Byte>)
    requires prefix != ESC && NeverArms<Paste>(Observing(), prefix, State(false, false, true, IDLE), bytes)
    ensures var start := State(false, false, true, IDLE);
            InOrder(prefix, start, bytes, Run<Paste>(Observing(), effects, prefix, start, bytes)) <==>
            NoEscapeBehindPrefix(prefix, start, bytes)
  {
    var start: State<Paste> := State(false, false, true, IDLE);
    NestedConserves<Paste>(Observing(), effects, prefix, start, bytes);
    OrderIsApart(prefix, start, bytes);
  }

  lemma {:induction false} OrderIsApart(prefix: Byte, state: State<Paste>, bytes: seq<Byte>)
    requires state.nested && !state.outer && prefix != ESC && (state.pending ==> state.paste == IDLE)
    requires NeverArms<Paste>(Observing(), prefix, state, bytes)
    ensures HeldInOrder<Paste>(Observing(), prefix, state, bytes) <==> NoEscapeBehindPrefix(prefix, state, bytes)
    decreases |bytes|
  {
    if bytes != [] {
      ClaimsOnlyEscape(state.paste, bytes[0]);
      if !(state.pending && bytes[0] == ESC) {
        OrderIsApart(prefix, Onward<Paste>(Observing(), prefix, state, bytes[0]), bytes[1..]);
      }
    }
  }

  /** Ctrl-A and then Up in a nested client: the prefix arrives inside the arrow's escape sequence. */
  lemma EscapeOvertakesPrefix(effects: Effects)
    ensures Run<Paste>(Observing(), effects, 1, State(false, false, true, IDLE), [1, ESC, OPEN, 0x41]).sent ==
            [Key(ESC), Key(OPEN), Key(1), Key(0x41)]
  {
    var keys: seq<Byte> := [1, ESC, OPEN, 0x41];
    assert keys[1..] == [ESC, OPEN, 0x41] && keys[1..][1..] == [OPEN, 0x41] && keys[1..][1..][1..] == [0x41];
    assert [0x41][1..] == [];
    var s1: State<Paste> := State(true, false, true, IDLE);
    RunStep(effects, State(false, false, true, IDLE), keys, s1, []);
    var s2: State<Paste> := State(true, false, true, Matcher(false, 1));
    RunStep(effects, s1, keys[1..], s2, [Key(ESC)]);
    var s3: State<Paste> := State(true, false, true, Matcher(false, 2));
    RunStep(effects, s2, [OPEN, 0x41], s3, [Key(OPEN)]);
    RunStep(effects, s3, [0x41], State(false, false, true, IDLE), [Key(1), Key(0x41)]);
  }

  lemma RunStep(effects: Effects, s: State<Paste>, bytes: seq<Byte>, next: State<Paste>, sent: seq<Atom>)
    requires bytes != [] && Step<Paste>(Observing(), effects, 1, s, bytes[0]) == Outcome(next, sent, None, 1)
    ensures Run<Paste>(Observing(), effects, 1, s, bytes) ==
            Run<Paste>(Observing(), effects, 1, next, bytes[1..]).After(sent, 1)
  {
  }

  /**
   A held prefix, ESC, a second prefix and a key that acts: the picker stays closed, the action comes
   from the middle of the chunk, and the key behind it is dropped.
   */
  lemma EscapeDropsKey(effects: Effects, key: Byte, last: Byte)
    requires effects(key).Act? && key != 1 && key != ESC && last != 1
    ensures var start, chunk := State(false, false, true, IDLE), [1, ESC, 1, key, last];
            && BeginQuickActions<Paste>(Observing(), 1, start, chunk) == Closed
            && Trim(start, chunk) == (chunk, [])
            && Run<Paste>(Observing(), effects, 1, start, chunk).action.Some?
            && Run<Paste>(Observing(), effects, 1, start, chunk).used == 4
  {
    var start: State<Paste>, chunk: seq<Byte> := State(false, false, true, IDLE), [1, ESC, 1, key, last];
    assert chunk[1..] == [ESC, 1, key, last] && [ESC, 1, key, last][1..] == [1, key, last];
    assert [1, key, last][1..] == [key, last] && [key, last][1..] == [last] && [last][1..] == [];
    var held: State<Paste> := State(true, false, true, IDLE);
    RunStep(effects, start, chunk, held, []);
    RunStep(effects, held, chunk[1..], State(true, false, true, Matcher(false, 1)), [Key(ESC)]);
    RunStep(effects, State(true, false, true, Matcher(false, 1)), [1, key, last], State(false, true, true, IDLE), []);
    NoDoubleThere(key, last);
  }

  lemma NoDoubleThere(key: Byte, last: Byte)
    requires key != 1 && key != ESC && last != 1
    ensures FirstPrefix<Paste>(Observing(), 1, true, IDLE, [1, ESC, 1, key, last]) == None
  {
    var chunk: seq<Byte> := [1, ESC, 1, key, last];
    assert chunk[1..] == [ESC, 1, key, last] && [ESC, 1, key, last][1..] == [1, key, last];
    assert [1, key, last][1..] == [key, last] && [key, last][1..] == [last] && [last][1..] == [];
    assert FirstPrefix<Paste>(Observing(), 1, true, IDLE, [last]) == None;
    assert FirstPrefix<Paste>(Observing(), 1, true, IDLE, [key, last]) == None;
    assert FirstPrefix<Paste>(Observing(), 1, true, Matcher(false, 1), [1, key, last]) == None;
  }

  // ----- Doubling the prefix in the shipped client

  /** No paste is open anywhere in a text. */
  ghost predicate NeverOpens(paste: Paste, bytes: seq<Byte>)
    decreases |bytes|
  {
    !paste.pasting && (bytes != [] ==> NeverOpens(ObserveByte(paste, bytes[0]).0, bytes[1..]))
  }

  /** Outside pastes the shipped observer claims no prefix, unless the prefix belongs to the opening delimiter. */
  lemma {:induction false} OutsidePastes(prefix: Byte, paste: Paste, bytes: seq<Byte>)
    requires prefix !in START && NeverOpens(paste, bytes)
    ensures PrefixesTyped<Paste>(Observing(), prefix, paste, bytes)
    decreases |bytes|
  {
    if bytes != [] {
      assert START[paste.matched] in START;
      OutsidePastes(prefix, ObserveByte(paste, bytes[0]).0, bytes[1..]);
    }
  }

  lemma CompleteOccurs(seen: seq<Byte>, bytes: seq<Byte>)
    requires EndsWith(seen, START[..5]) && bytes != [] && bytes[0] == START[5]
    ensures Contains(seen + bytes, START)
  {
    var at := |seen| - 5;
    assert (seen + bytes)[at..at + 6] == seen[at..] + [bytes[0]] == START;
    assert OccursAt(seen + bytes, START, at);
  }

  /** A text without the opening delimiter opens no paste. */
  lemma {:induction false} NoDelimiterNoPaste(seen: seq<Byte>, paste: Paste, bytes: seq<Byte>)
    requires !paste.pasting && EndsWith(seen, START[..paste.matched]) && !Contains(seen + bytes, START)
    ensures NeverOpens(paste, bytes)
    decreases |bytes|
  {
    if bytes != [] {
      var b, m := bytes[0], paste.matched;
      var next := ObserveByte(paste, b).0;
      assert seen + bytes == (seen + [b]) + bytes[1..];
      assert START[..m + 1] == START[..m] + [START[m]];
      if b == START[m] {
        assert EndsWith(seen + [b], START[..m + 1]) by {
          assert (seen + [b])[|seen| - m..] == seen[|seen| - m..] + [b];
        }
        if m == 5 {
          CompleteOccurs(seen, bytes);
        }
      } else {
        assert EndsWith(seen + [b], START[..next.matched]) by {
          assert START[..1] == [ESC] && START[..0] == [];
          assert (seen + [b])[|seen|..] == [b] && (seen + [b])[|seen| + 1..] == [];
        }
      }
      if !next.pasting {
        NoDelimiterNoPaste(seen + [b], next, bytes[1..]);
      }
    }
  }

  /**
   In the shipped client, on input without the delimiter that opens a paste, escape keys included: doubling
   every prefix byte delivers the original bytes exactly when neither the configuration nor a built-in binds
   the prefix key.
   */
  lemma ShippedDoubling(cfg: Config, bytes: seq<Byte>)
    requires cfg.prefix !in START && !Contains(Double(cfg.prefix, bytes), START)
    ensures var run := Run<Paste>(Observing(), Table(cfg), cfg.prefix, State(false, false, false, IDLE),
                                  Double(cfg.prefix, bytes));
            run.action.None? && run.sent == Keys(bytes) <==>
            cfg.prefix !in bytes || (ConfiguredEffect(cfg.prefix, cfg).None? && !BuiltinKey(cfg.prefix))
  {
    var doubled := Double(cfg.prefix, bytes);
    assert [] + doubled == doubled && START[..0] == [];
    NoDelimiterNoPaste([], IDLE, doubled);
    OutsidePastes(cfg.prefix, IDLE, doubled);
    DoublingWithKeyTable<Paste>(Observing(), cfg, State(false, false, false, IDLE), bytes);
  }

  // ----- What a nested client drops, in the shipped client

  lemma ClaimedIsEscape(effects: Effects, prefix: Byte, bytes: seq<Byte>, i: nat, j: nat, k: nat)
    requires DropsAt<Paste>(Observing(), effects, prefix, State(false, false, true, IDLE), bytes, i, j, k)
    ensures bytes[i + 1] == ESC
  {
    var start: State<Paste> := State(false, false, true, IDLE);
    var before := At<Paste>(Observing(), prefix, start, bytes, i);
    ClaimsOnlyEscape(before.paste, bytes[i]);
    StaysNested<Paste>(Observing(), prefix, start, bytes, i);
    assert At<Paste>(Observing(), prefix, start, bytes, i + 1).paste == IDLE;
    assert Claims<Paste>(Observing(), prefix, start, bytes, i + 1);
    ClaimsOnlyEscape(IDLE, bytes[i + 1]);
  }

  /**
   A resting nested client whose picker stays closed drops keys exactly if the chunk holds: a typed prefix, ESC
   directly behind it and only claimed bytes up to a second typed prefix, only claimed bytes up to a typed key
   that acts, and at least one byte behind that.
   */
  lemma NestedDropsExactlyWhen(effects: Effects, prefix: Byte, chunk: seq<Byte>)
    requires BeginQuickActions<Paste>(Observing(), prefix, State(false, false, true, IDLE), chunk).Closed?
    ensures var start := State(false, false, true, IDLE);
            Run<Paste>(Observing(), effects, prefix, start, chunk).used < |chunk| <==>
            exists i: nat, j: nat, k: nat ::
              DropsAt<Paste>(Observing(), effects, prefix, start, chunk, i, j, k) && chunk[i + 1] == ESC
  {
    var start: State<Paste> := State(false, false, true, IDLE);
    UnusedExactlyWhen<Paste>(Observing(), effects, prefix, start, chunk);
    DropShape<Paste>(Observing(), effects, prefix, start, chunk);
    if i: nat, j: nat, k: nat :| DropsAt<Paste>(Observing(), effects, prefix, start, chunk, i, j, k) {
      ClaimedIsEscape(effects, prefix, chunk, i, j, k);
    }
  }
}
