/** The body of an SGR mouse report: `b;x;y` between `ESC [ <` and `M` or `m`. */
module SgrMouse {
  import opened Bytes
  import Decimal

  datatype MouseKind =
    | WheelUp | WheelDown | WheelLeft | WheelRight
    | Hover | Drag | Click | Release | RightClick

  datatype MouseEvent = MouseEvent(x: nat, y: nat, kind: MouseKind)

  const U16_MAX: nat := 0xffff
  const U32_MAX: nat := 0xffff_ffff

  /** The shape of well-formed UTF-8, by leading byte. */
  predicate ValidUtf8(s: seq<Byte>)
    decreases |s|
  {
    if s == [] then true
    else if s[0] < 0x80 then ValidUtf8(s[1..])
    else if 0xc2 <= s[0] <= 0xdf then |s| >= 2 && Continuation(s[1]) && ValidUtf8(s[2..])
    else if 0xe0 <= s[0] <= 0xef then
      && |s| >= 3 && Continuation(s[1]) && Continuation(s[2])
      && (s[0] == 0xe0 ==> s[1] >= 0xa0) && (s[0] == 0xed ==> s[1] <= 0x9f)
      && ValidUtf8(s[3..])
    else
      && 0xf0 <= s[0] <= 0xf4 && |s| >= 4
      && Continuation(s[1]) && Continuation(s[2]) && Continuation(s[3])
      && (s[0] == 0xf0 ==> s[1] >= 0x90) && (s[0] == 0xf4 ==> s[1] <= 0x8f)
      && ValidUtf8(s[4..])
  }

  predicate Continuation(b: Byte) { 0x80 <= b <= 0xbf }

  predicate IsDigit(b: Byte) { 0x30 <= b <= 0x39 }

  /** The pieces of `s` between semicolons; there is always at least one. */
  function Fields(s: seq<Byte>): (fields: seq<seq<Byte>>)
    ensures |fields| > 0
  {
    if s == [] then [[]]
    else if s[0] == SEMICOLON then [[]] + Fields(s[1..])
    else var tail := Fields(s[1..]); [[s[0]] + tail[0]] + tail[1..]
  }

  /** An unsigned integer as the standard parser reads it: optional plus, digits, no overflow. */
  function ParseUnsigned(s: seq<Byte>, max: nat): Option<nat> {
    ParseDigits(if |s| > 0 && s[0] == 0x2b then s[1..] else s, max)
  }

  function DigitsOf(s: seq<Byte>): (ds: seq<nat>)
    requires forall i :: 0 <= i < |s| ==> IsDigit(s[i])
    ensures |ds| == |s| && forall i :: 0 <= i < |s| ==> ds[i] + 0x30 == s[i]
  {
    seq(|s|, i requires 0 <= i < |s| && IsDigit(s[i]) => s[i] - 0x30)
  }

  function ParseDigits(digits: seq<Byte>, max: nat): Option<nat> {
    if digits == [] || exists i :: 0 <= i < |digits| && !IsDigit(digits[i]) then None
    else
      var value := Decimal.Value(DigitsOf(digits));
      if value <= max then Some(value) else None
  }

  /** What a button code and terminator mean; the codes nobody reports are dropped. */
  function Classify(button: nat, term: Byte): Option<MouseKind> {
    if button / 64 % 2 != 0 then
      match button % 4
      case 0 => Some(WheelUp)
      case 1 => Some(WheelDown)
      case 2 => Some(WheelLeft)
      case _ => Some(WheelRight)
    else if button / 32 % 2 != 0 then
      if button % 4 == 3 then Some(Hover)
      else if button % 4 == 0 then Some(Drag)
      else None
    else if button % 4 == 0 && term == PRESS then Some(Click)
    else if button % 4 == 0 && term == RELEASE then Some(Release)
    else if button % 4 == 2 && term == PRESS then Some(RightClick)
    else None
  }

  function ParseSgrMouse(body: seq<Byte>, term: Byte): Option<MouseEvent> {
    if !ValidUtf8(body) then None
    else
      var fields := Fields(body);
      var b := ParseUnsigned(fields[0], U32_MAX);
      var x := if |fields| > 1 then ParseUnsigned(fields[1], U16_MAX) else None;
      var y := if |fields| > 2 then ParseUnsigned(fields[2], U16_MAX) else None;
      if b.None? || x.None? || y.None? then None
      else
        var kind := Classify(b.value, term);
        if kind.None? then None else Some(MouseEvent(x.value, y.value, kind.value))
  }

  // ----- Printing a report, and reading it back

  function Numeral(n: nat): (s: seq<Byte>)
    ensures |s| > 0 && forall i :: 0 <= i < |s| ==> IsDigit(s[i])
  {
    var ds := Decimal.Digits(n);
    seq(|ds|, i requires 0 <= i < |ds| => 0x30 + ds[i])
  }

  function ReportBody(button: nat, x: nat, y: nat): seq<Byte> {
    Numeral(button) + [SEMICOLON] + (Numeral(x) + [SEMICOLON] + Numeral(y))
  }

  lemma NumeralReadsBack(n: nat, max: nat)
    requires n <= max
    ensures ParseUnsigned(Numeral(n), max) == Some(n)
  {
    var s, ds := Numeral(n), Decimal.Digits(n);
    assert s[0] != 0x2b;
    assert DigitsOf(s) == ds;
    Decimal.ValueOfDigits(n);
  }

  lemma {:induction false} FieldsOfOne(s: seq<Byte>)
    requires SEMICOLON !in s
    ensures Fields(s) == [s]
  {
    if s != [] {
      FieldsOfOne(s[1..]);
      assert [s[0]] + s[1..] == s;
    }
  }

  lemma {:induction false} FieldsOfFirst(s: seq<Byte>, rest: seq<Byte>)
    requires SEMICOLON !in s
    ensures Fields(s + [SEMICOLON] + rest) == [s] + Fields(rest)
  {
    var whole := s + [SEMICOLON] + rest;
    if s == [] {
      assert whole[1..] == rest;
    } else {
      assert whole[1..] == s[1..] + [SEMICOLON] + rest;
      FieldsOfFirst(s[1..], rest);
      assert [s[0]] + s[1..] == s;
    }
  }

  lemma {:induction false} AsciiIsUtf8(s: seq<Byte>)
    requires forall i :: 0 <= i < |s| ==> s[i] < 0x80
    ensures ValidUtf8(s)
  {
    if s != [] {
      AsciiIsUtf8(s[1..]);
    }
  }

  lemma ReportFields(b: seq<Byte>, x: seq<Byte>, y: seq<Byte>)
    requires SEMICOLON !in b && SEMICOLON !in x && SEMICOLON !in y
    ensures Fields(b + [SEMICOLON] + (x + [SEMICOLON] + y)) == [b, x, y]
  {
    FieldsOfFirst(b, x + [SEMICOLON] + y);
    FieldsOfFirst(x, y);
    FieldsOfOne(y);
  }

  /** Every report a terminal can print is read back as its own button, cell and terminator. */
  lemma ReportReadsBack(button: nat, x: nat, y: nat, term: Byte)
    requires button <= U32_MAX && x <= U16_MAX && y <= U16_MAX
    ensures ParseSgrMouse(ReportBody(button, x, y), term)
         == match Classify(button, term)
            case None => None
            case Some(kind) => Some(MouseEvent(x, y, kind))
  {
    AsciiIsUtf8(ReportBody(button, x, y));
    ReportFields(Numeral(button), Numeral(x), Numeral(y));
    NumeralReadsBack(button, U32_MAX);
    NumeralReadsBack(x, U16_MAX);
    NumeralReadsBack(y, U16_MAX);
  }

  // ----- Which bodies are read at all

  /** A numeral with at least one digit, perhaps behind a plus, that is not too large. */
  ghost predicate Denotes(s: seq<Byte>, n: nat, max: nat) {
    exists ds :: IsNumeral(s, ds) && Decimal.Value(ds) == n <= max
  }

  ghost predicate IsNumeral(s: seq<Byte>, ds: seq<nat>) {
    && ds != [] && (|s| == |ds| || (|s| == |ds| + 1 && s[0] == '+' as int))
    && forall i :: 0 <= i < |ds| ==> ds[i] <= 9 && s[|s| - |ds| + i] == '0' as int + ds[i]
  }

  function Unsigned(s: seq<Byte>): seq<Byte> { if |s| > 0 && s[0] == 0x2b then s[1..] else s }

  lemma ParsedDenotes(s: seq<Byte>, max: nat, n: nat)
    requires ParseUnsigned(s, max) == Some(n)
    ensures Denotes(s, n, max)
  {
    var ds := DigitsOf(Unsigned(s));
    forall i | 0 <= i < |ds| ensures ds[i] <= 9 && s[|s| - |ds| + i] == '0' as int + ds[i] {
      assert Unsigned(s)[i] == s[|s| - |ds| + i] && IsDigit(Unsigned(s)[i]);
    }
    assert IsNumeral(s, ds);
  }

  lemma NumeralParses(s: seq<Byte>, max: nat, ds: seq<nat>)
    requires IsNumeral(s, ds) && Decimal.Value(ds) <= max
    ensures ParseUnsigned(s, max) == Some(Decimal.Value(ds))
  {
    var digits := Unsigned(s);
    assert s[|s| - |ds| + 0] == '0' as int + ds[0];
    assert |digits| == |ds|;
    forall i | 0 <= i < |ds| ensures digits[i] == 0x30 + ds[i] && IsDigit(digits[i]) {
      assert digits[i] == s[|s| - |ds| + i];
    }
    assert DigitsOf(digits) == ds;
  }

  lemma ParsedExactly(s: seq<Byte>, max: nat, n: nat)
    ensures ParseUnsigned(s, max) == Some(n) <==> Denotes(s, n, max)
  {
    if ParseUnsigned(s, max) == Some(n) {
      ParsedDenotes(s, max, n);
    }
    if Denotes(s, n, max) {
      var ds :| IsNumeral(s, ds) && Decimal.Value(ds) == n <= max;
      NumeralParses(s, max, ds);
    }
  }

  lemma {:induction false} FieldsSplit(s: seq<Byte>)
    ensures var fields := Fields(s);
            SEMICOLON !in fields[0] &&
            if |fields| == 1 then s == fields[0]
            else exists rest :: s == fields[0] + [SEMICOLON] + rest && Fields(rest) == fields[1..]
  {
    if s != [] {
      FieldsSplit(s[1..]);
      var tail := Fields(s[1..]);
      if s[0] == SEMICOLON {
        assert s == [] + [SEMICOLON] + s[1..] && Fields(s)[1..] == tail;
      } else {
        assert s == [s[0]] + s[1..];
        if |tail| > 1 {
          var rest :| s[1..] == tail[0] + [SEMICOLON] + rest && Fields(rest) == tail[1..];
          assert s == ([s[0]] + tail[0]) + [SEMICOLON] + rest && Fields(s)[1..] == tail[1..];
        }
      }
    }
  }

  /** A body of three fields, perhaps with more behind them that nobody reads. */
  ghost predicate HasFields(body: seq<Byte>, b: seq<Byte>, x: seq<Byte>, y: seq<Byte>) {
    && SEMICOLON !in b && SEMICOLON !in x && SEMICOLON !in y
    && var three := b + [SEMICOLON] + (x + [SEMICOLON] + y);
       body == three || (three < body && body[|three|] == SEMICOLON)
  }

  lemma FieldsExactly(body: seq<Byte>, b: seq<Byte>, x: seq<Byte>, y: seq<Byte>)
    ensures HasFields(body, b, x, y) <==> |Fields(body)| > 2 && Fields(body)[..3] == [b, x, y]
  {
    if HasFields(body, b, x, y) {
      FieldsFound(body, b, x, y);
    }
    if |Fields(body)| > 2 && Fields(body)[..3] == [b, x, y] {
      assert Fields(body)[0] == b && Fields(body)[1] == x && Fields(body)[2] == y;
      FieldsSplit(body);
      var rest :| body == b + [SEMICOLON] + rest && Fields(rest) == Fields(body)[1..];
      assert Fields(rest)[0] == x && Fields(rest)[1] == y;
      FieldsSplit(rest);
      var last :| rest == x + [SEMICOLON] + last && Fields(last) == Fields(rest)[1..];
      FieldsSplit(last);
      assert Fields(last)[0] == y;
      assert last == y || (y < last && last[|y|] == SEMICOLON);
      FieldsInFront(body, b, x, y, last);
    }
  }

  lemma FieldsInFront(body: seq<Byte>, b: seq<Byte>, x: seq<Byte>, y: seq<Byte>, last: seq<Byte>)
    requires SEMICOLON !in b && SEMICOLON !in x && SEMICOLON !in y
    requires body == b + [SEMICOLON] + (x + [SEMICOLON] + last)
    requires last == y || (y < last && last[|y|] == SEMICOLON)
    ensures HasFields(body, b, x, y)
  {
    var front := b + [SEMICOLON] + (x + [SEMICOLON]);
    assert body == front + last && b + [SEMICOLON] + (x + [SEMICOLON] + y) == front + y;
  }

  lemma FieldsFound(body: seq<Byte>, b: seq<Byte>, x: seq<Byte>, y: seq<Byte>)
    requires HasFields(body, b, x, y)
    ensures |Fields(body)| > 2 && Fields(body)[..3] == [b, x, y]
  {
    var three := b + [SEMICOLON] + (x + [SEMICOLON] + y);
    if body == three {
      ReportFields(b, x, y);
    } else {
      var more := body[|three| + 1..];
      assert body == three + [SEMICOLON] + more;
      assert body == b + [SEMICOLON] + (x + [SEMICOLON] + (y + [SEMICOLON] + more));
      FieldsOfFirst(b, x + [SEMICOLON] + (y + [SEMICOLON] + more));
      FieldsOfFirst(x, y + [SEMICOLON] + more);
      FieldsOfFirst(y, more);
    }
  }

  // ----- The codes xterm assigns to the events

  function ButtonCode(kind: MouseKind): nat {
    match kind
    case Click => 0
    case Release => 0
    case RightClick => 2
    case Drag => 32
    case Hover => 32 + 3
    case WheelUp => 64
    case WheelDown => 64 + 1
    case WheelLeft => 64 + 2
    case WheelRight => 64 + 3
  }

  /** The bits of a button code that matter: the two lowest, motion, and wheel; shift, meta and control do not. */
  predicate HasCode(button: nat, kind: MouseKind) {
    var code := ButtonCode(kind);
    && button % 4 == code % 4
    && (if code >= 64 then button / 64 % 2 == 1
        else button / 64 % 2 == 0 && (if code >= 32 then button / 32 % 2 == 1 else button / 32 % 2 == 0))
  }

  /** Presses and releases are told apart by the terminator, and only then does it matter. */
  predicate EndsAs(term: Byte, kind: MouseKind) {
    match kind
    case Click => term == PRESS
    case RightClick => term == PRESS
    case Release => term == RELEASE
    case _ => true
  }

  /**
   A report is an event of some kind exactly if it has that kind's code and terminator. So everything else, such
   as the middle button, a right button that is released or drags, is no event.
   */
  lemma CodesExactly(button: nat, term: Byte, kind: MouseKind)
    ensures Classify(button, term) == Some(kind) <==> HasCode(button, kind) && EndsAs(term, kind)
  {
  }

  /** The same for a whole report: which reports a terminal prints become which event, and which none. */
  lemma EventExactlyWhen(button: nat, x: nat, y: nat, term: Byte, e: MouseEvent)
    requires button <= U32_MAX && x <= U16_MAX && y <= U16_MAX
    ensures ParseSgrMouse(ReportBody(button, x, y), term) == Some(e) <==>
            (e.x, e.y) == (x, y) && HasCode(button, e.kind) && EndsAs(term, e.kind)
  {
    ReportReadsBack(button, x, y, term);
    CodesExactly(button, term, e.kind);
  }

  /** The numerals of button, column and row in a body. */
  ghost predicate Reports(body: seq<Byte>, button: nat, x: nat, y: nat) {
    exists b, c, r :: HasFields(body, b, c, r) && Numbers(b, c, r, button, x, y)
  }

  ghost predicate Numbers(b: seq<Byte>, c: seq<Byte>, r: seq<Byte>, button: nat, x: nat, y: nat) {
    Denotes(b, button, U32_MAX) && Denotes(c, x, U16_MAX) && Denotes(r, y, U16_MAX)
  }

  lemma NumbersExactly(b: seq<Byte>, c: seq<Byte>, r: seq<Byte>, button: nat, x: nat, y: nat)
    ensures Numbers(b, c, r, button, x, y) <==>
            ParseUnsigned(b, U32_MAX) == Some(button) && ParseUnsigned(c, U16_MAX) == Some(x) &&
            ParseUnsigned(r, U16_MAX) == Some(y)
  {
    ParsedExactly(b, U32_MAX, button);
    ParsedExactly(c, U16_MAX, x);
    ParsedExactly(r, U16_MAX, y);
  }

  /** A report of a kind: a code and a place, and the terminator that goes with it. */
  ghost predicate IsReportOf(body: seq<Byte>, term: Byte, e: MouseEvent) {
    EndsAs(term, e.kind) && exists button :: Reports(body, button, e.x, e.y) && HasCode(button, e.kind)
  }

  lemma EventIsReport(body: seq<Byte>, term: Byte, e: MouseEvent)
    requires ParseSgrMouse(body, term) == Some(e)
    ensures IsReportOf(body, term, e)
  {
    var fields := Fields(body);
    var button := ParseUnsigned(fields[0], U32_MAX).value;
    assert fields[..3] == [fields[0], fields[1], fields[2]];
    FieldsExactly(body, fields[0], fields[1], fields[2]);
    NumbersExactly(fields[0], fields[1], fields[2], button, e.x, e.y);
    CodesExactly(button, term, e.kind);
    assert Reports(body, button, e.x, e.y);
  }

  lemma ReportIsEvent(
    body: seq<Byte>, term: Byte, e: MouseEvent, button: nat, b: seq<Byte>, c: seq<Byte>, r: seq<Byte>
  )
    requires ValidUtf8(body) && EndsAs(term, e.kind) && HasCode(button, e.kind)
    requires HasFields(body, b, c, r) && Numbers(b, c, r, button, e.x, e.y)
    ensures ParseSgrMouse(body, term) == Some(e)
  {
    FieldsExactly(body, b, c, r);
    NumbersExactly(b, c, r, button, e.x, e.y);
    CodesExactly(button, term, e.kind);
    ParsesBy(body, term, b, c, r, button, e);
  }

  lemma ParsesBy(
    body: seq<Byte>, term: Byte, b: seq<Byte>, c: seq<Byte>, r: seq<Byte>, button: nat, e: MouseEvent
  )
    requires ValidUtf8(body) && |Fields(body)| > 2 && Fields(body)[..3] == [b, c, r]
    requires ParseUnsigned(b, U32_MAX) == Some(button) && Classify(button, term) == Some(e.kind)
    requires ParseUnsigned(c, U16_MAX) == Some(e.x) && ParseUnsigned(r, U16_MAX) == Some(e.y)
    ensures ParseSgrMouse(body, term) == Some(e)
  {
    var fields := Fields(body);
    assert fields[0] == fields[..3][0] && fields[1] == fields[..3][1] && fields[2] == fields[..3][2];
  }

  /**
   Which bodies are events, whatever a terminal or anyone else sends: valid text with numerals for button, column
   and row, within their ranges, and a code and terminator that mean something.
   */
  lemma ReadExactlyWhen(body: seq<Byte>, term: Byte, e: MouseEvent)
    ensures ParseSgrMouse(body, term) == Some(e) <==> ValidUtf8(body) && IsReportOf(body, term, e)
  {
    if ParseSgrMouse(body, term) == Some(e) {
      EventIsReport(body, term, e);
    }
    if ValidUtf8(body) && IsReportOf(body, term, e) {
      var button: nat :| Reports(body, button, e.x, e.y) && HasCode(button, e.kind);
      var b, c, r :| HasFields(body, b, c, r) && Numbers(b, c, r, button, e.x, e.y);
      ReportIsEvent(body, term, e, button, b, c, r);
    }
  }

  lemma CodeIsItsKind(kind: MouseKind, modifiers: nat)
    requires modifiers < 8
    ensures Classify(ButtonCode(kind) + 4 * modifiers, if kind.Release? then RELEASE else PRESS) == Some(kind)
  {
    var code := ButtonCode(kind) + 4 * modifiers;
    assert code / 64 == if ButtonCode(kind) >= 64 then 1 else 0;
    assert code / 32 == ButtonCode(kind) / 32;
    assert code % 4 == ButtonCode(kind) % 4;
  }

  /** Every event, reported with its xterm code and any of shift, meta and control held, is read back. */
  lemma EventReadsBack(e: MouseEvent, modifiers: nat)
    requires e.x <= U16_MAX && e.y <= U16_MAX && modifiers < 8
    ensures ParseSgrMouse(ReportBody(ButtonCode(e.kind) + 4 * modifiers, e.x, e.y),
            if e.kind.Release? then RELEASE else PRESS) == Some(e)
  {
    CodeIsItsKind(e.kind, modifiers);
    ReportReadsBack(ButtonCode(e.kind) + 4 * modifiers, e.x, e.y, if e.kind.Release? then RELEASE else PRESS);
  }
}
