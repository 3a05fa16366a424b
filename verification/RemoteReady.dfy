/** The SSH bridge's handshake: skip the login shell's chatter up to the ready marker. */
module RemoteReady {
  import opened Bytes

  const NEWLINE: Byte := 0x0a
  const MAX_PREAMBLE: nat := 65536

  /** "UNITERM-REMOTE/1" and a newline. */
  const READY: seq<Byte> := [0x55, 0x4e, 0x49, 0x54, 0x45, 0x52, 0x4d, 0x2d, 0x52, 0x45, 0x4d, 0x4f, 0x54, 0x45, 0x2f,
    0x31, 0x0a]

  predicate IsNewline(b: Byte) { b == NEWLINE }

  /** One line with its newline, or what is left of the stream. */
  function NextLine(stream: seq<Byte>): (line: seq<Byte>)
    ensures |line| <= |stream| && line == stream[..|line|]
    ensures stream != [] ==> line != []
    ensures forall i :: 0 <= i < |line| - 1 ==> line[i] != NEWLINE
    ensures |line| < |stream| ==> line[|line| - 1] == NEWLINE
  {
    var end := FirstIndex(stream, IsNewline);
    if end < |stream| then stream[..end + 1] else stream
  }

  predicate EndsWith(s: seq<Byte>, m: seq<Byte>) { |m| <= |s| && s[|s| - |m|..] == m }

  datatype Handshake = Ready(rest: seq<Byte>) | EndOfStream | TooMuchText

  // ----- First-substring search, the simple form

  /** The marker ends at offset `n` of the stream. */
  ghost predicate EndsAt(stream: seq<Byte>, n: nat) { n <= |stream| && EndsWith(stream[..n], READY) }

  ghost predicate FirstEndsAt(stream: seq<Byte>, n: nat) {
    EndsAt(stream, n) && forall k: nat :: k < n ==> !EndsAt(stream, k)
  }

  /** No occurrence ends before the unread part, and none has been passed. */
  ghost predicate NoneBefore(stream: seq<Byte>, n: nat) { forall k: nat :: k <= n ==> !EndsAt(stream, k) }

  lemma MarkerEndsWithNewline(s: seq<Byte>)
    requires EndsWith(s, READY)
    ensures s[|s| - 1] == NEWLINE && forall i :: |s| - 17 <= i < |s| - 1 ==> s[i] != NEWLINE
  {
    assert s[|s| - 17..][16] == READY[16];
    forall i | |s| - 17 <= i < |s| - 1 ensures s[i] != NEWLINE {
      assert s[|s| - 17..][i - (|s| - 17)] == READY[i - (|s| - 17)];
    }
  }

  /** Inside a line no marker can end, since a marker ends with a newline. */
  lemma NoneInsideLine(stream: seq<Byte>, at: nat, line: seq<Byte>, k: nat)
    requires at + |line| <= |stream| && line == stream[at..at + |line|]
    requires forall i :: 0 <= i < |line| - 1 ==> line[i] != NEWLINE
    requires at < k < at + |line|
    ensures !EndsAt(stream, k)
  {
    assert stream[..k][k - 1] == stream[k - 1] == line[k - 1 - at];
    if EndsAt(stream, k) {
      MarkerEndsWithNewline(stream[..k]);
    }
  }

  /** A marker that ends with a line lies within it: the line before ended with a newline. */
  lemma MarkerWithinLine(stream: seq<Byte>, at: nat, line: seq<Byte>)
    requires at + |line| <= |stream| && line == stream[at..at + |line|] && line != []
    requires at > 0 ==> stream[at - 1] == NEWLINE
    ensures EndsAt(stream, at + |line|) <==> EndsWith(line, READY)
  {
    var n := at + |line|;
    var s := stream[..n];
    assert |line| >= 17 ==> s[n - 17..] == line[|line| - 17..];
    assert at > 0 ==> s[at - 1] == NEWLINE;
    if EndsWith(s, READY) && |line| < 17 {
      MarkerEndsWithNewline(s);
    }
  }

  /** After one more line, the only place a new marker can end is the end of the line. */
  lemma LineScanned(stream: seq<Byte>, at: nat, line: seq<Byte>)
    requires at + |line| <= |stream| && line == stream[at..at + |line|] && line != []
    requires forall i :: 0 <= i < |line| - 1 ==> line[i] != NEWLINE
    requires at > 0 ==> stream[at - 1] == NEWLINE
    requires NoneBefore(stream, at)
    ensures forall k: nat :: k < at + |line| ==> !EndsAt(stream, k)
    ensures EndsAt(stream, at + |line|) <==> EndsWith(line, READY)
  {
    forall k: nat | at < k < at + |line| ensures !EndsAt(stream, k) {
      NoneInsideLine(stream, at, line, k);
    }
    MarkerWithinLine(stream, at, line);
  }

  /** The scan's verdict agrees with searching for the first occurrence of the marker. */
  ghost predicate Agrees(stream: seq<Byte>, result: Handshake) {
    && (forall n: nat :: FirstEndsAt(stream, n) && n <= MAX_PREAMBLE ==> result == Ready(stream[n..]))
    && ((forall n: nat :: n <= MAX_PREAMBLE ==> !FirstEndsAt(stream, n)) ==>
          result == if |stream| > MAX_PREAMBLE then TooMuchText else EndOfStream)
  }

  lemma AgreesFound(stream: seq<Byte>, n: nat)
    requires FirstEndsAt(stream, n) && n <= MAX_PREAMBLE
    ensures Agrees(stream, Ready(stream[n..]))
  {
  }

  lemma AgreesNone(stream: seq<Byte>, n: nat)
    requires n <= |stream| && (n == |stream| <= MAX_PREAMBLE || n == MAX_PREAMBLE < |stream|)
    requires forall k: nat :: k <= n ==> !EndsAt(stream, k)
    ensures Agrees(stream, if |stream| > MAX_PREAMBLE then TooMuchText else EndOfStream)
  {
    forall m: nat | m <= MAX_PREAMBLE ensures !FirstEndsAt(stream, m) {
      assert m <= |stream| ==> !EndsAt(stream, m);
    }
  }

  /** Reads one line at offset `at` and looks for the marker at its end. */
  method ReadLine(ghost stream: seq<Byte>, ghost at: nat, rest: seq<Byte>) returns (line: seq<Byte>, found: bool)
    requires at <= |stream| && rest == stream[at..] && NoneBefore(stream, at)
    requires 0 < at < |stream| ==> stream[at - 1] == NEWLINE
    ensures |line| <= |rest| && (line == [] <==> rest == [])
    ensures forall k: nat :: k < at + |line| ==> !EndsAt(stream, k)
    ensures found <==> line != [] && EndsAt(stream, at + |line|)
    ensures 0 < |line| < |rest| ==> rest[|line| - 1] == NEWLINE
  {
    line := NextLine(rest);
    found := EndsWith(line, READY);
    if line != [] {
      assert line == stream[at..at + |line|];
      LineScanned(stream, at, line);
    } else {
      assert |READY| == 17;
    }
  }

  lemma NextRest(stream: seq<Byte>, at: nat, n: nat)
    requires at + n <= |stream|
    ensures stream[at..][n..] == stream[at + n..]
    ensures 0 < n ==> stream[at..][n - 1] == stream[at + n - 1]
  {
  }

  /** The line-by-line scan succeeds exactly if the first marker ends within the limit, and stops right after it. */
  method ReadRemoteReady(stream: seq<Byte>) returns (result: Handshake)
    ensures Agrees(stream, result)
  {
    var consumed, rest := 0, stream;
    assert !EndsAt(stream, 0);
    while true
      invariant consumed <= |stream| && consumed <= MAX_PREAMBLE && rest == stream[consumed..]
      invariant NoneBefore(stream, consumed)
      invariant 0 < consumed < |stream| ==> stream[consumed - 1] == NEWLINE
      decreases |stream| - consumed
    {
      var line, found := ReadLine(stream, consumed, rest);
      if line == [] {
        AgreesNone(stream, consumed);
        return EndOfStream;
      }
      NextRest(stream, consumed, |line|);
      consumed, rest := consumed + |line|, rest[|line|..];
      if consumed > MAX_PREAMBLE {
        AgreesNone(stream, MAX_PREAMBLE);
        return TooMuchText;
      }
      if found {
        AgreesFound(stream, consumed);
        return Ready(rest);
      }
    }
  }
}
