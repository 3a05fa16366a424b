/**
 The stdin decoder of the attach client: mouse reports are pulled out of the byte
 stream, a trailing partial escape sequence is carried to the next read, and focus
 reports are removed from what is left.
 */
module StdinScan {
  import opened Bytes
  import opened SgrMouse

  // ----- The three layers, as functions of their input

  datatype MouseScan = MouseScan(events: seq<MouseEvent>, pass: seq<Byte>, leftover: seq<Byte>) {
    /** This scan with earlier events and passthrough in front. */
    function After(earlier: seq<MouseEvent>, before: seq<Byte>): MouseScan {
      MouseScan(earlier + events, before + pass, leftover)
    }

    lemma AfterAfter(e1: seq<MouseEvent>, p1: seq<Byte>, e2: seq<MouseEvent>, p2: seq<Byte>)
      ensures After(e2, p2).After(e1, p1) == After(e1 + e2, p1 + p2)
    {
      assert e1 + (e2 + events) == (e1 + e2) + events;
      assert p1 + (p2 + pass) == (p1 + p2) + pass;
    }
  }

  predicate IsTerminator(b: Byte) { b == PRESS || b == RELEASE }

  predicate IsFinal(b: Byte) { 0x40 <= b <= 0x7e }

  /** How a report body and its terminator become a mouse event; the scanner works for any reading. */
  type Reader = (seq<Byte>, Byte) -> Option<MouseEvent>

  function EventOf(parse: Reader, body: seq<Byte>, term: Byte): seq<MouseEvent> {
    match parse(body, term)
    case None => []
    case Some(event) => [event]
  }

  /** Mouse reports, the other bytes, and a trailing partial report (or bare `ESC [`). */
  function Scan(parse: Reader, buf: seq<Byte>): MouseScan
    decreases |buf|
  {
    if buf == [] then MouseScan([], [], [])
    else if buf[0] == ESC && |buf| == 2 && buf[1] == OPEN then MouseScan([], [], buf)
    else if buf[0] == ESC && |buf| > 2 && buf[1] == OPEN && buf[2] == LESS then
      var off := FirstIndex(buf[3..], IsTerminator);
      if 3 + off == |buf| then MouseScan([], [], buf)
      else
        Scan(parse, buf[3 + off + 1..]).After(EventOf(parse, buf[3..3 + off], buf[3 + off]), [])
    else
      Scan(parse, buf[1..]).After([], [buf[0]])
  }

  /** What follows a final ESC still lacks bytes: nothing, or a short CSI without a final byte. */
  predicate Unfinished(rest: seq<Byte>) {
    rest == [] ||
    (rest[0] == OPEN && |rest| - 1 <= 16 && forall i :: 1 <= i < |rest| ==> !IsFinal(rest[i]))
  }

  /** The trailing partial keyboard escape that is held back from `pass`: it starts at the last ESC. */
  function PartialEscape(pass: seq<Byte>): (tail: seq<Byte>)
    ensures |tail| <= |pass|
  {
    if pass == [] then []
    else if ESC in pass[1..] then PartialEscape(pass[1..])
    else if pass[0] == ESC && Unfinished(pass[1..]) then pass
    else []
  }

  /** A CSI with parameters only: it cannot be a lone Escape press. */
  predicate IncompleteCsiKey(bytes: seq<Byte>) {
    && 3 <= |bytes| <= 18 && bytes[0] == ESC && bytes[1] == OPEN
    && forall i :: 2 <= i < |bytes| ==> IsDigit(bytes[i]) || bytes[i] == SEMICOLON || bytes[i] == COLON
  }

  datatype Focus = Focus(focused: Option<bool>, keys: seq<Byte>)

  predicate IsFocusReport(s: seq<Byte>) {
    |s| >= 3 && s[0] == ESC && s[1] == OPEN && (s[2] == FOCUS_IN || s[2] == FOCUS_OUT)
  }

  /** The bytes without focus reports, and the focus state the last report leaves behind. */
  function StripFocus(input: seq<Byte>): Focus
    decreases |input|
  {
    if input == [] then Focus(None, [])
    else if IsFocusReport(input) then
      var tail := StripFocus(input[3..]);
      tail.(focused := Later(Some(input[2] == FOCUS_IN), tail.focused))
    else
      var tail := StripFocus(input[1..]);
      tail.(keys := [input[0]] + tail.keys)
  }

  function Later<T>(a: Option<T>, b: Option<T>): Option<T> {
    if b.Some? then b else a
  }

  // ----- One read and one dry read of the attach loop

  /** What decoding delivers: mouse events, key bytes, and the focus left behind. */
  datatype Out = Out(events: seq<MouseEvent>, keys: seq<Byte>, focused: Option<bool>) {
    function Then(next: Out): Out {
      Out(events + next.events, keys + next.keys, Later(focused, next.focused))
    }
  }

  const NOTHING := Out([], [], None)

  /** The two carry buffers between reads. */
  datatype Carry = Carry(mouse: seq<Byte>, key: seq<Byte>) {
    function Bytes(): seq<Byte> { mouse + key }
  }

  const EMPTY := Carry([], [])

  /** Hold back the partial escape of a scan and strip focus reports from the rest. */
  function Settle(scan: MouseScan): (Out, Carry) {
    var kept := StripFocus(Settled(scan.pass));
    (Out(scan.events, kept.keys, kept.focused), Carry(scan.leftover, PartialEscape(scan.pass)))
  }

  /** The passthrough without its trailing partial escape. */
  function Settled(pass: seq<Byte>): seq<Byte> {
    pass[..|pass| - |PartialEscape(pass)|]
  }

  function Read(parse: Reader, carry: Carry, chunk: seq<Byte>): (Out, Carry) {
    Settle(Scan(parse, carry.mouse + carry.key + chunk))
  }

  /** The read that found no data: a held key is released unless it must be a longer CSI. */
  function Dry(carry: Carry): (Out, Carry) {
    if carry.key != [] && !IncompleteCsiKey(carry.key) then
      var stripped := StripFocus(carry.key);
      (Out([], stripped.keys, stripped.focused), carry.(key := []))
    else (NOTHING, carry)
  }

  datatype Step = Chunk(chunk: seq<Byte>) | Idle {
    function Bytes(): seq<Byte> { if Chunk? then chunk else [] }
  }

  function Apply(parse: Reader, carry: Carry, step: Step): (Out, Carry) {
    match step
    case Chunk(chunk) => Read(parse, carry, chunk)
    case Idle => Dry(carry)
  }

  /** What one step delivers and carries over. */
  type Machine = (Carry, Step) -> (Out, Carry)

  function Decoding(parse: Reader): Machine {
    (carry: Carry, step: Step) => Apply(parse, carry, step)
  }

  /** Everything delivered by a run of steps, on top of what was `delivered` before it. */
  function Run(machine: Machine, delivered: Out, carry: Carry, steps: seq<Step>): (Out, Carry)
    decreases |steps|
  {
    if steps == [] then (delivered, carry)
    else
      var (out, next) := machine(carry, steps[0]);
      Run(machine, delivered.Then(out), next, steps[1..])
  }

  // ----- The loops of the source, proved to compute those functions

  method ScanMouse(
    parse: Reader, buf: seq<Byte>
  ) returns (events: seq<MouseEvent>, pass: seq<Byte>, leftover: seq<Byte>)
    ensures MouseScan(events, pass, leftover) == Scan(parse, buf)
  {
    events, pass := [], [];
    var rest := buf;
    while rest != []
      invariant Scan(parse, buf) == Scan(parse, rest).After(events, pass)
      decreases |rest|
    {
      if rest[0] == ESC && |rest| > 1 && rest[1] == OPEN {
        if |rest| == 2 {
          return events, pass, rest;
        }
        if rest[2] == LESS {
          var off := FirstIndex(rest[3..], IsTerminator);
          if 3 + off == |rest| {
            return events, pass, rest;
          }
          var found := EventOf(parse, rest[3..3 + off], rest[3 + off]);
          Scan(parse, rest[3 + off + 1..]).AfterAfter(events, pass, found, []);
          assert pass + [] == pass;
          events := events + found;
          rest := rest[3 + off + 1..];
          continue;
        }
      }
      Scan(parse, rest[1..]).AfterAfter(events, pass, [], [rest[0]]);
      assert events + [] == events;
      pass := pass + [rest[0]];
      rest := rest[1..];
    }
    leftover := [];
  }

  method SplitPartialEscape(chunk: seq<Byte>) returns (rest: seq<Byte>, tail: seq<Byte>)
    ensures tail == PartialEscape(chunk) && rest == Settled(chunk)
  {
    var esc := |chunk|;
    while esc > 0 && chunk[esc - 1] != ESC
      invariant 0 <= esc <= |chunk|
      invariant ESC !in chunk[esc..]
    {
      esc := esc - 1;
    }
    PartialFrom(chunk, esc);
    if esc > 0 && Unfinished(chunk[esc..]) {
      rest, tail := chunk[..esc - 1], chunk[esc - 1..];
    } else {
      rest, tail := chunk, [];
    }
  }

  /** Searching for the last ESC from the right finds the tail. */
  lemma {:induction false} PartialFrom(w: seq<Byte>, n: nat)
    requires n <= |w| && ESC !in w[n..] && (n > 0 ==> w[n - 1] == ESC)
    ensures PartialEscape(w) == if n > 0 && Unfinished(w[n..]) then w[n - 1..] else []
  {
    if n > 1 {
      assert w[1..][n - 1..] == w[n..] && w[1..][n - 2..] == w[n - 1..];
      assert w[1..][n - 2] == ESC;
      PartialFrom(w[1..], n - 1);
    } else if n == 1 {
      assert w[0..] == w;
    } else if w != [] {
      assert w[0] in w[0..];
      assert w[1..] == w[0..][1..];
    }
  }

  method StripFocusEvents(input: seq<Byte>) returns (focused: Option<bool>, output: seq<Byte>)
    ensures Focus(focused, output) == StripFocus(input)
  {
    focused, output := None, [];
    var index := 0;
    while index < |input|
      invariant index <= |input|
      invariant StripFocus(input) == Focus(Later(focused, StripFocus(input[index..]).focused),
                                           output + StripFocus(input[index..]).keys)
    {
      ghost var rest := input[index..];
      if index + 3 <= |input| && input[index..index + 3] == [ESC, OPEN, FOCUS_IN] {
        assert rest[3..] == input[index + 3..] && rest[..3] == input[index..index + 3];
        focused := Some(true);
        index := index + 3;
      } else if index + 3 <= |input| && input[index..index + 3] == [ESC, OPEN, FOCUS_OUT] {
        assert rest[3..] == input[index + 3..] && rest[..3] == input[index..index + 3];
        focused := Some(false);
        index := index + 3;
      } else {
        assert rest[1..] == input[index + 1..];
        output := output + [input[index]];
        index := index + 1;
      }
    }
  }

  /** The client's decoder state: the carry buffers survive from one read to the next. */
  class StdinDecoder {
    const parse: Reader
    var mouseLeftover: seq<Byte>
    var keyPending: seq<Byte>

    ghost function State(): Carry
      reads this
    {
      Carry(mouseLeftover, keyPending)
    }

    constructor (parse: Reader)
      ensures State() == EMPTY && this.parse == parse
    {
      this.parse := parse;
      mouseLeftover, keyPending := [], [];
    }

    method ReadChunk(chunk: seq<Byte>) returns (out: Out)
      modifies this
      ensures (out, State()) == Read(parse, old(State()), chunk)
    {
      var raw := mouseLeftover + keyPending + chunk;
      var events, pass, leftover := ScanMouse(parse, raw);
      mouseLeftover := leftover;
      var rest, tail := SplitPartialEscape(pass);
      keyPending := tail;
      var focused, keys := StripFocusEvents(rest);
      out := Out(events, keys, focused);
    }

    method ReadDry() returns (out: Out)
      modifies this
      ensures (out, State()) == Dry(old(State()))
    {
      out := NOTHING;
      if keyPending != [] && !IncompleteCsiKey(keyPending) {
        var focused, keys := StripFocusEvents(keyPending);
        keyPending := [];
        out := Out([], keys, focused);
      }
    }
  }
}
