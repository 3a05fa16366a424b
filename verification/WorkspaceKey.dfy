/** Workspace names: making a safe key from any text, and finding one that is not taken. */
module WorkspaceKey {
  import opened Bytes
  import Decimal
  import Text

  const MAX_NAME: nat := 64
  const FIRST_SUFFIX: nat := 2
  const SUFFIX_LIMIT: nat := 10_000
  const PID_LIMIT: nat := 0x1_0000_0000

  predicate IsAlphanumeric(c: char) { '0' <= c <= '9' || 'A' <= c <= 'Z' || 'a' <= c <= 'z' }

  predicate IsNameChar(c: char) { IsAlphanumeric(c) || c == '-' || c == '_' || c == '.' }

  predicate AllNameChars(s: string) { forall i :: 0 <= i < |s| ==> IsNameChar(s[i]) }

  /** The names accepted wherever a Workspace becomes a socket or a state file. */
  predicate ValidName(name: string) {
    0 < |name| <= MAX_NAME && name != "." && name != ".." && AllNameChars(name)
  }

  function Numeral(n: nat): (s: string)
    ensures |s| == |Decimal.Digits(n)| && forall i :: 0 <= i < |s| ==> '0' <= s[i] <= '9'
  {
    var ds := Decimal.Digits(n);
    seq(|ds|, i requires 0 <= i < |ds| => ('0' as int + ds[i]) as char)
  }

  predicate TrimmedAtEnd(c: char) { c == '.' || c == '-' }

  function TrimEnd(s: string): (t: string)
    ensures t <= s && (t != [] ==> !TrimmedAtEnd(t[|t| - 1]))
  {
    if s != [] && TrimmedAtEnd(s[|s| - 1]) then TrimEnd(s[..|s| - 1]) else s
  }

  /** As much of `base` as leaves room for a suffix. */
  function Stem(base: string, reserved: nat): string {
    var keep := if reserved <= MAX_NAME then MAX_NAME - reserved else 0;
    TrimEnd(base[..if keep <= |base| then keep else |base|])
  }

  function Bounded(base: string, suffix: Option<string>): string {
    var stem := Stem(base, if suffix.Some? then |suffix.value| + 1 else 0);
    var named := if stem == [] then "workspace" else stem;
    if suffix.Some? then named + "-" + suffix.value else named
  }

  function Candidate(base: string, suffix: nat): string { Bounded(base, Some(Numeral(suffix))) }

  // ----- A key begins with as much of the requested name as fits

  /** A non-empty beginning of the name that fits and does not end in a dot or a dash. */
  predicate Fits(base: string, room: int, p: string) {
    p <= base && 0 < |p| <= room && p[|p| - 1] != '.' && p[|p| - 1] != '-'
  }

  /** The longest such beginning, or the word "workspace" if there is none. */
  ghost predicate Stands(base: string, room: int, p: string) {
    if exists q :: Fits(base, room, q) then Fits(base, room, p) && forall q :: Fits(base, room, q) ==> |q| <= |p|
    else p == "workspace"
  }

  /** A key for `base` that ends in `suffix`, dash included. */
  ghost predicate Names(base: string, suffix: string, key: string) {
    exists p :: Stands(base, 64 - |suffix|, p) && key == p + suffix
  }

  lemma {:induction false} TrimEndIsLongest(s: string, p: string)
    requires p <= s && p != [] && !TrimmedAtEnd(p[|p| - 1])
    ensures p <= TrimEnd(s)
  {
    if TrimmedAtEnd(s[|s| - 1]) {
      TrimEndIsLongest(s[..|s| - 1], p);
    }
  }

  lemma StemStands(base: string, reserved: nat)
    ensures var stem := Stem(base, reserved);
            Stands(base, 64 - reserved, if stem == [] then "workspace" else stem)
  {
    var stem, room := Stem(base, reserved), if reserved <= MAX_NAME then MAX_NAME - reserved else 0;
    var front := base[..if room <= |base| then room else |base|];
    var left: int := 64 - reserved;
    forall p | Fits(base, left, p) ensures p <= stem {
      assert p <= front;
      TrimEndIsLongest(front, p);
    }
    if stem != [] {
      assert Fits(base, left, stem);
    }
  }

  lemma BoundedNames(base: string)
    ensures Names(base, "", Bounded(base, None))
  {
    StemStands(base, 0);
    assert Bounded(base, None) + "" == Bounded(base, None);
  }

  lemma CandidateNames(base: string, n: nat)
    ensures Names(base, "-" + Numeral(n), Candidate(base, n))
  {
    var stem := Stem(base, |Numeral(n)| + 1);
    var p := if stem == [] then "workspace" else stem;
    StemStands(base, |Numeral(n)| + 1);
    NamedWith(base, p, Numeral(n));
  }

  lemma NamedWith(base: string, p: string, digits: string)
    requires Stands(base, 64 - (|digits| + 1), p)
    ensures Names(base, "-" + digits, p + "-" + digits)
  {
    assert p + "-" + digits == p + ("-" + digits);
  }

  lemma NamesOnce(base: string, suffix: string, k1: string, k2: string)
    requires Names(base, suffix, k1) && Names(base, suffix, k2)
    ensures k1 == k2
  {
    var p1 :| Stands(base, 64 - |suffix|, p1) && k1 == p1 + suffix;
    var p2 :| Stands(base, 64 - |suffix|, p2) && k2 == p2 + suffix;
  }

  /** A name that fits as it is names itself. */
  lemma NamesItself(base: string, key: string)
    requires 0 < |base| <= 64 && base[|base| - 1] != '.' && base[|base| - 1] != '-' && Names(base, "", key)
    ensures key == base
  {
    var p :| Stands(base, 64 - |""|, p) && key == p + "";
    assert Fits(base, 64 - |""|, base);
  }

  /** All suffixes from 2 up to `n` are taken. */
  ghost predicate AllTaken(whole: string, present: set<string>, n: nat) {
    forall j, key :: 2 <= j < n && Names(whole, "-" + Numeral(j), key) ==> key in present
  }

  /**
   The key for a requested name: the name itself, cut to what fits, if it is free; else with the first free
   suffix from 2 to 9999; else with the process id.
   */
  ghost predicate KeyFor(base: string, present: set<string>, pid: nat, key: string) {
    exists whole :: Names(base, "", whole)
      && (if whole !in present then key == whole else exists n :: Suffixed(whole, present, pid, key, n))
  }

  ghost predicate Suffixed(whole: string, present: set<string>, pid: nat, key: string, n: nat) {
    && Names(whole, "-" + Numeral(n), key)
    && (|| (2 <= n < 10_000 && key !in present && AllTaken(whole, present, n))
        || (n == pid && AllTaken(whole, present, 10_000)))
  }

  lemma FreeKeyIsFor(base: string, present: set<string>, pid: nat)
    ensures var whole := Bounded(base, None);
            KeyFor(base, present, pid, FreeKey(whole, Candidates(whole), present, pid))
  {
    var whole := Bounded(base, None);
    BoundedNames(base);
    if whole in present {
      FirstFreeInRange(Candidates(whole), present, FIRST_SUFFIX);
      var free := FirstFree(Candidates(whole), present, FIRST_SUFFIX);
      var n := if free.Some? then free.value else pid;
      var limit := if free.Some? then n else SUFFIX_LIMIT;
      CandidateNames(whole, n);
      forall j, key | 2 <= j < limit && Names(whole, "-" + Numeral(j), key) ensures key in present {
        CandidateNames(whole, j);
        NamesOnce(whole, "-" + Numeral(j), key, Candidates(whole)(j));
      }
      assert AllTaken(whole, present, limit);
      assert Suffixed(whole, present, pid, Candidate(whole, n), n);
    }
  }

  // ----- Candidates for distinct suffixes are distinct

  /** What follows the last dash. */
  function AfterDash(s: string): string {
    if '-' !in s then s else AfterDash(s[1..])
  }

  lemma {:induction false} AfterLastDash(p: string, d: string)
    requires '-' !in d
    ensures AfterDash(p + "-" + d) == d
  {
    var s := p + "-" + d;
    assert s[|p|] == '-';
    if p == [] {
      assert s[1..] == d;
    } else {
      assert s[1..] == p[1..] + "-" + d;
      AfterLastDash(p[1..], d);
    }
  }

  lemma NumeralInjective(j: nat, k: nat)
    requires Numeral(j) == Numeral(k)
    ensures j == k
  {
    var a, b := Decimal.Digits(j), Decimal.Digits(k);
    assert |a| == |b|;
    forall i | 0 <= i < |a| ensures a[i] == b[i] {
      assert Numeral(j)[i] == Numeral(k)[i];
    }
    assert a == b;
    Decimal.ValueOfDigits(j);
    Decimal.ValueOfDigits(k);
  }

  lemma CandidatesDiffer(base: string, j: nat, k: nat)
    requires Candidate(base, j) == Candidate(base, k)
    ensures j == k
  {
    forall n ensures AfterDash(Candidate(base, n)) == Numeral(n) {
      var stem := Stem(base, |Numeral(n)| + 1);
      AfterLastDash(if stem == [] then "workspace" else stem, Numeral(n));
    }
    NumeralInjective(j, k);
  }

  // ----- Every key is a valid name

  /** A suffixed key stays within the bound exactly if some of the base survives or the suffix is short. */
  lemma BoundedFits(base: string, suffix: string)
    requires |suffix| + 1 <= MAX_NAME
    ensures |Bounded(base, Some(suffix))| <= MAX_NAME <==> Stem(base, |suffix| + 1) != [] || |suffix| <= MAX_NAME - 10
  {
    assert |"workspace"| == 9;
  }

  lemma NumeralIsShort(n: nat)
    requires n < PID_LIMIT
    ensures |Numeral(n)| <= 10
  {
    assert Decimal.Power10(5) == 100_000 by {
      assert Decimal.Power10(3) == 1000;
    }
    assert Decimal.Power10(8) == 100_000_000 by {
      assert Decimal.Power10(7) == 10_000_000;
    }
    assert Decimal.Power10(10) == 10_000_000_000;
    Decimal.DigitsBound(n, 10);
  }

  lemma StemIsSafe(base: string, reserved: nat)
    requires AllNameChars(base)
    ensures AllNameChars(Stem(base, reserved)) && |Stem(base, reserved)| <= MAX_NAME
  {
  }

  lemma BoundedIsValid(base: string)
    requires AllNameChars(base)
    ensures ValidName(Bounded(base, None))
  {
    StemIsSafe(base, 0);
    assert AllNameChars("workspace");
  }

  lemma CandidateIsValid(base: string, n: nat)
    requires AllNameChars(base) && n < PID_LIMIT
    ensures ValidName(Candidate(base, n))
  {
    var suffix := Numeral(n);
    NumeralIsShort(n);
    BoundedFits(base, suffix);
    var stem := Stem(base, |suffix| + 1);
    StemIsSafe(base, |suffix| + 1);
    assert AllNameChars("workspace");
    SuffixedIsValid(if stem == [] then "workspace" else stem, suffix);
  }

  lemma SuffixedIsValid(stem: string, suffix: string)
    requires AllNameChars(stem) && |stem + "-" + suffix| <= MAX_NAME && suffix != []
    requires forall i :: 0 <= i < |suffix| ==> '0' <= suffix[i] <= '9'
    ensures ValidName(stem + "-" + suffix)
  {
    var key := stem + "-" + suffix;
    assert key[|key| - 1] == suffix[|suffix| - 1];
  }

  // ----- The search

  /** The names to try, by suffix. */
  type Naming = nat -> string

  function Candidates(base: string): Naming { (n: nat) => Candidate(base, n) }

  /** The first suffix at or after `k` whose candidate is free, if the search reaches one. */
  function FirstFree(names: Naming, present: set<string>, k: nat): Option<nat>
    decreases SUFFIX_LIMIT - k
  {
    if k >= SUFFIX_LIMIT then None
    else if names(k) !in present then Some(k)
    else FirstFree(names, present, k + 1)
  }

  /** The base itself, else the first free suffix, else the process id as a last resort. */
  function FreeKey(base: string, names: Naming, present: set<string>, pid: nat): string {
    if base !in present then base
    else match FirstFree(names, present, FIRST_SUFFIX)
      case Some(k) => names(k)
      case None => names(pid)
  }

  lemma FreeKeyIsValid(base: string, present: set<string>, pid: nat)
    requires ValidName(base) && pid < PID_LIMIT
    ensures ValidName(FreeKey(base, Candidates(base), present, pid))
  {
    CandidateIsValid(base, pid);
    var free := FirstFree(Candidates(base), present, FIRST_SUFFIX);
    FirstFreeInRange(Candidates(base), present, FIRST_SUFFIX);
    if free.Some? {
      CandidateIsValid(base, free.value);
    }
  }

  /** The search finds the first free suffix: every earlier one is taken. */
  lemma {:induction false} FirstFreeInRange(names: Naming, present: set<string>, k: nat)
    ensures match FirstFree(names, present, k)
            case Some(n) => k <= n < SUFFIX_LIMIT && names(n) !in present && forall j :: k <= j < n ==>
              names(j) in present
            case None => forall j :: k <= j < SUFFIX_LIMIT ==> names(j) in present
    decreases SUFFIX_LIMIT - k
  {
    if k < SUFFIX_LIMIT && names(k) in present {
      FirstFreeInRange(names, present, k + 1);
    }
  }

  /** With fewer than 9,998 names taken, the key is free; and it is always a valid name. */
  method UniqueKey(base: string, present: set<string>, pid: nat) returns (key: string)
    ensures KeyFor(base, present, pid, key)
    ensures 0 < |base| <= 64 && base[|base| - 1] != '.' && base[|base| - 1] != '-' && base !in present ==> key == base
    ensures key == FreeKey(Bounded(base, None), Candidates(Bounded(base, None)), present, pid)
    ensures |present| < SUFFIX_LIMIT - FIRST_SUFFIX ==> key !in present
    ensures AllNameChars(base) && pid < PID_LIMIT ==> ValidName(key) && key != "." && key != ".."
  {
    var b := Bounded(base, None);
    if AllNameChars(base) && pid < PID_LIMIT {
      BoundedIsValid(base);
      FreeKeyIsValid(b, present, pid);
    }
    NamesDiffer(b);
    FreeKeyIsFor(base, present, pid);
    if 0 < |base| <= 64 && base[|base| - 1] != '.' && base[|base| - 1] != '-' {
      BoundedNames(base);
      NamesItself(base, b);
    }
    key := Search(b, Candidates(b), present, pid);
  }

  ghost predicate Distinguishes(names: Naming) {
    forall j, k :: names(j) == names(k) ==> j == k
  }

  lemma NamesDiffer(b: string)
    ensures Distinguishes(Candidates(b))
  {
    forall j, k | Candidates(b)(j) == Candidates(b)(k) ensures j == k {
      CandidatesDiffer(b, j, k);
    }
  }

  method Search(b: string, names: Naming, present: set<string>, pid: nat) returns (key: string)
    requires Distinguishes(names)
    ensures key == FreeKey(b, names, present, pid)
    ensures |present| < SUFFIX_LIMIT - FIRST_SUFFIX ==> key !in present
  {
    if b !in present {
      return b;
    }
    ghost var tried: set<string> := {};
    for suffix := FIRST_SUFFIX to SUFFIX_LIMIT
      invariant FirstFree(names, present, FIRST_SUFFIX) == FirstFree(names, present, suffix)
      invariant tried <= present && |tried| == suffix - FIRST_SUFFIX
      invariant forall name :: name in tried ==> exists k: nat :: k < suffix && name == names(k)
    {
      var candidate := names(suffix);
      if candidate !in present {
        return candidate;
      }
      tried := tried + {candidate};
    }
    Subset(tried, present);
    key := names(pid);
  }

  lemma {:induction false} Subset(a: set<string>, b: set<string>)
    requires a <= b
    ensures |a| <= |b|
  {
    if a != {} {
      var x :| x in a;
      Subset(a - {x}, b - {x});
    }
  }

  // ----- A key from any text

  predicate TrimmedAtStart(c: char) { c == '-' || c == '.' || c == '_' }

  /** A name that needs no repair. */
  predicate Clean(name: string) {
    && 0 < |name| <= MAX_NAME && AllNameChars(name)
    && !TrimmedAtStart(name[0]) && !TrimmedAtEnd(name[|name| - 1])
  }

  /** Runs of other characters become one dash; none leads; at most `room` characters. */
  function Squeezed(s: string, dashed: bool, started: bool, room: nat): string {
    if s == [] || room == 0 then []
    else if IsNameChar(s[0]) then [s[0]] + Squeezed(s[1..], false, true, room - 1)
    else if !dashed && started then ['-'] + Squeezed(s[1..], true, true, room - 1)
    else Squeezed(s[1..], dashed, started, room)
  }

  function TrimStart(s: string): string {
    if s != [] && TrimmedAtStart(s[0]) then TrimStart(s[1..]) else s
  }

  function Repaired(s: string): string {
    var key := TrimStart(TrimEnd(s));
    if key == [] || key == "." || key == ".." then "desktop" else key
  }

  /** The name characters of a text other than dashes. */
  function Letters(s: string): string {
    if s == [] then [] else Letter(s[0]) + Letters(s[1..])
  }

  lemma {:induction false} SqueezedIsSafe(s: string, dashed: bool, started: bool, room: nat)
    ensures AllNameChars(Squeezed(s, dashed, started, room)) && |Squeezed(s, dashed, started, room)| <= room
  {
    if s != [] && room > 0 {
      if IsNameChar(s[0]) {
        SqueezedIsSafe(s[1..], false, true, room - 1);
      } else if !dashed && started {
        SqueezedIsSafe(s[1..], true, true, room - 1);
      } else {
        SqueezedIsSafe(s[1..], dashed, started, room);
      }
    }
  }

  /** Squeezing keeps every letter in order: all of them, unless the room ran out. */
  lemma {:induction false} SqueezedKeepsLetters(s: string, dashed: bool, started: bool, room: nat)
    ensures Letters(Squeezed(s, dashed, started, room)) <= Letters(s)
    ensures |Squeezed(s, dashed, started, room)| < room ==> Letters(Squeezed(s, dashed, started, room)) == Letters(s)
  {
    if s != [] && room > 0 {
      LettersFirst(s);
      if IsNameChar(s[0]) {
        SqueezedKeepsLetters(s[1..], false, true, room - 1);
        LettersCons(s[0], Squeezed(s[1..], false, true, room - 1));
      } else if !dashed && started {
        SqueezedKeepsLetters(s[1..], true, true, room - 1);
        LettersCons('-', Squeezed(s[1..], true, true, room - 1));
      } else {
        SqueezedKeepsLetters(s[1..], dashed, started, room);
      }
    }
  }

  function Letter(c: char): string { if IsNameChar(c) && c != '-' then [c] else [] }

  lemma LettersCons(c: char, s: string)
    ensures Letters([c] + s) == Letter(c) + Letters(s)
  {
    assert ([c] + s)[1..] == s;
  }

  lemma LettersFirst(s: string)
    requires s != []
    ensures Letters(s) == Letter(s[0]) + Letters(s[1..])
    ensures Letter(s[0]) == [] ==> Letters(s) == Letters(s[1..])
  {
  }

  // ----- The words of the text, joined by single dashes

  /** The name characters a text begins with. */
  function Span(s: string): (n: nat)
    ensures n <= |s| && (forall i :: 0 <= i < n ==> IsNameChar(s[i])) && (n < |s| ==> !IsNameChar(s[n]))
  {
    if s == [] || !IsNameChar(s[0]) then 0 else 1 + Span(s[1..])
  }

  /** The maximal runs of name characters. */
  function Words(s: string): seq<string>
    decreases |s|
  {
    if s == [] then []
    else if IsNameChar(s[0]) then [s[..Span(s)]] + Words(s[Span(s)..])
    else Words(s[1..])
  }

  function Joined(ws: seq<string>): string {
    if ws == [] then [] else if |ws| == 1 then ws[0] else ws[0] + "-" + Joined(ws[1..])
  }

  /** The words joined by single dashes, and one more dash if other characters follow the last word. */
  function Spelled(s: string): string {
    if Words(s) != [] && !IsNameChar(s[|s| - 1]) then Joined(Words(s)) + "-" else Joined(Words(s))
  }

  lemma {:induction false} SqueezedIsCut(s: string, dashed: bool, started: bool, room: nat, more: nat)
    ensures var short := Squeezed(s, dashed, started, room);
            short <= Squeezed(s, dashed, started, room + more)
            && (|short| < room ==> short == Squeezed(s, dashed, started, room + more))
  {
    if s != [] && room > 0 {
      if IsNameChar(s[0]) {
        SqueezedIsCut(s[1..], false, true, room - 1, more);
      } else if !dashed && started {
        SqueezedIsCut(s[1..], true, true, room - 1, more);
      } else {
        SqueezedIsCut(s[1..], dashed, started, room, more);
      }
    }
  }

  lemma {:induction false} SqueezedRun(w: string, tail: string, dashed: bool, started: bool, room: nat)
    requires w != [] && AllNameChars(w) && |w| <= room
    ensures Squeezed(w + tail, dashed, started, room) == w + Squeezed(tail, false, true, room - |w|)
    decreases |w|
  {
    assert (w + tail)[0] == w[0] && (w + tail)[1..] == w[1..] + tail;
    if |w| == 1 {
      assert w[1..] + tail == tail && w == [w[0]];
    } else {
      SqueezedRun(w[1..], tail, false, true, room - 1);
      Prepend(w, Squeezed(tail, false, true, room - |w|));
    }
  }

  lemma Prepend(w: string, tail: string)
    requires w != []
    ensures [w[0]] + (w[1..] + tail) == w + tail
  {
  }

  lemma {:induction false} SpanRun(w: string, c: char, rest: string)
    requires AllNameChars(w) && !IsNameChar(c)
    ensures Span(w + ([c] + rest)) == |w|
    decreases |w|
  {
    if w == [] {
      assert w + ([c] + rest) == [c] + rest;
    } else {
      assert (w + ([c] + rest))[1..] == w[1..] + ([c] + rest);
      SpanRun(w[1..], c, rest);
    }
  }

  lemma WordsRun(w: string, c: char, rest: string)
    requires w != [] && AllNameChars(w) && !IsNameChar(c)
    ensures Words(w + ([c] + rest)) == [w] + Words(rest)
  {
    var s := w + ([c] + rest);
    SpanRun(w, c, rest);
    assert s[..|w|] == w && s[|w|..] == [c] + rest && ([c] + rest)[1..] == rest;
  }

  lemma JoinedFirst(w: string, ws: seq<string>)
    ensures Joined([w] + ws) == if ws == [] then w else w + "-" + Joined(ws)
  {
    assert ([w] + ws)[1..] == ws;
  }

  lemma EndsAlike(w: string, c: char, rest: string)
    ensures var s := w + ([c] + rest); s[|s| - 1] == if rest == [] then c else rest[|rest| - 1]
  {
  }

  lemma SpelledRun(w: string, c: char, rest: string)
    requires w != [] && AllNameChars(w) && !IsNameChar(c)
    ensures Spelled(w + ([c] + rest)) == w + "-" + Spelled(rest)
  {
    WordsRun(w, c, rest);
    JoinedFirst(w, Words(rest));
    EndsAlike(w, c, rest);
    if Words(rest) == [] {
      NoWords(rest);
      assert w + "-" + [] == w + "-";
    } else {
      assert w + "-" + (Joined(Words(rest)) + "-") == w + "-" + Joined(Words(rest)) + "-";
    }
  }

  lemma {:induction false} NoWords(s: string)
    requires Words(s) == []
    ensures forall i :: 0 <= i < |s| ==> !IsNameChar(s[i])
    decreases |s|
  {
    if s != [] {
      NoWords(s[1..]);
    }
  }

  lemma SpelledWord(s: string)
    requires s != [] && AllNameChars(s)
    ensures Spelled(s) == s
  {
    assert Span(s) == |s| && s[..|s|] == s && s[|s|..] == [];
    assert Words(s) == [s] + [];
  }

  lemma SpelledOther(s: string)
    requires s != [] && !IsNameChar(s[0])
    ensures Spelled(s) == Spelled(s[1..])
  {
    if Words(s) != [] {
      assert |s| > 1 && s[|s| - 1] == s[1..][|s| - 2];
    }
  }

  /** Squeezing with room enough spells the text. */
  lemma {:induction false} SqueezedSpells(s: string, dashed: bool, started: bool, room: nat)
    requires dashed == started && |s| <= room
    ensures Squeezed(s, dashed, started, room) == Spelled(s)
    decreases |s|
  {
    if s != [] {
      if !IsNameChar(s[0]) {
        SpelledOther(s);
        SqueezedSpells(s[1..], dashed, started, room);
      } else if Span(s) == |s| {
        SpelledWord(s);
        SqueezedRun(s, [], dashed, started, room);
        assert s + [] == s;
      } else {
        var w, c, rest := s[..Span(s)], s[Span(s)], s[Span(s) + 1..];
        assert s == w + ([c] + rest);
        SqueezedSpells(rest, true, true, room - |w| - 1);
        SqueezedParts(w, c, rest, dashed, started, room);
        SpelledRun(w, c, rest);
      }
    }
  }

  lemma SqueezedParts(w: string, c: char, rest: string, dashed: bool, started: bool, room: nat)
    requires w != [] && AllNameChars(w) && !IsNameChar(c) && |w| < room
    ensures Squeezed(w + ([c] + rest), dashed, started, room) == w + "-" + Squeezed(rest, true, true, room - |w| - 1)
  {
    SqueezedRun(w, [c] + rest, dashed, started, room);
    assert ([c] + rest)[1..] == rest;
    var more := Squeezed(rest, true, true, room - |w| - 1);
    assert w + (['-'] + more) == w + "-" + more;
  }

  /** What is left of a text without dashes, dots and underscores in front and dashes and dots behind. */
  ghost predicate Stripped(s: string, i: nat, j: nat, t: string) {
    && i <= j <= |s| && t == s[i..j]
    && (forall k :: 0 <= k < i ==> s[k] in {'-', '.', '_'}) && (forall k :: j <= k < |s| ==> s[k] in {'-', '.'})
    && (t != [] ==> t[0] !in {'-', '.', '_'} && t[|t| - 1] !in {'-', '.'})
  }

  lemma {:induction false} TrimEndStrips(s: string)
    ensures forall k :: |TrimEnd(s)| <= k < |s| ==> s[k] in {'-', '.'}
  {
    if s != [] && TrimmedAtEnd(s[|s| - 1]) {
      TrimEndStrips(s[..|s| - 1]);
    }
  }

  lemma {:induction false} TrimStartStrips(s: string) returns (i: nat)
    ensures i <= |s| && TrimStart(s) == s[i..] && (forall k :: 0 <= k < i ==> s[k] in {'-', '.', '_'})
    ensures i < |s| ==> s[i] !in {'-', '.', '_'}
  {
    i := 0;
    if s != [] && TrimmedAtStart(s[0]) {
      i := TrimStartStrips(s[1..]);
      assert s[1..][i..] == s[i + 1..];
      assert forall k :: 0 < k < i + 1 ==> s[k] == s[1..][k - 1];
      i := i + 1;
    }
  }

  function Cut(s: string): string { if |s| <= 64 then s else s[..64] }

  /** A key from a text: its first 64 characters as spelled above, stripped; "desktop" if nothing is left. */
  ghost predicate SpellsKey(text: string, key: string) {
    exists i, j, t :: Stripped(Cut(Spelled(text)), i, j, t) && key == if t == "" then "desktop" else t
  }

  lemma SqueezedIsSpelled(text: string)
    ensures Squeezed(text, false, false, MAX_NAME) == Cut(Spelled(text))
  {
    SqueezedIsSafe(text, false, false, MAX_NAME);
    SqueezedIsCut(text, false, false, MAX_NAME, |text|);
    SqueezedSpells(text, false, false, MAX_NAME + |text|);
  }

  lemma KeyIsSpelled(text: string)
    ensures SpellsKey(text, Repaired(Squeezed(text, false, false, MAX_NAME)))
  {
    var cut := Cut(Spelled(text));
    SqueezedIsSpelled(text);
    TrimEndStrips(cut);
    var i := TrimStartStrips(TrimEnd(cut));
    var j := |TrimEnd(cut)|;
    assert TrimEnd(cut)[i..] == cut[i..j];
    assert Stripped(cut, i, j, cut[i..j]);
  }

  lemma {:induction false} SqueezedClean(s: string, started: bool, room: nat)
    requires AllNameChars(s) && |s| <= room
    ensures Squeezed(s, false, started, room) == s
  {
    if s != [] {
      SqueezedClean(s[1..], true, room - 1);
      assert s == [s[0]] + s[1..];
    }
  }

  lemma {:induction false} TrimStartIsSafe(s: string)
    requires AllNameChars(s)
    ensures AllNameChars(TrimStart(s)) && |TrimStart(s)| <= |s|
  {
    if s != [] && TrimmedAtStart(s[0]) {
      TrimStartIsSafe(s[1..]);
    }
  }

  lemma RepairedIsValid(s: string)
    requires AllNameChars(s) && |s| <= MAX_NAME
    ensures ValidName(Repaired(s))
  {
    TrimStartIsSafe(TrimEnd(s));
    assert AllNameChars("desktop");
  }

  lemma NameCharIsVisible(c: char)
    requires IsNameChar(c)
    ensures !Text.IsWhitespace(c)
  {
  }

  lemma CleanIsKept(name: string)
    requires Clean(name)
    ensures Repaired(Squeezed(Text.Trim(name), false, false, MAX_NAME)) == name
  {
    NameCharIsVisible(name[0]);
    NameCharIsVisible(name[|name| - 1]);
    SqueezedClean(name, false, MAX_NAME);
  }

  /** Every text becomes a valid Workspace name, and a clean name is left as it is. */
  method MigrationKey(name: string) returns (key: string)
    ensures SpellsKey(Text.Trim(name), key) && key != "." && key != ".."
    ensures key == Repaired(Squeezed(Text.Trim(name), false, false, MAX_NAME))
    ensures ValidName(key)
    ensures Clean(name) ==> key == name
  {
    KeyIsSpelled(Text.Trim(name));
    key := Squeeze(Text.Trim(name));
    SqueezedIsSafe(Text.Trim(name), false, false, MAX_NAME);
    RepairedIsValid(key);
    if Clean(name) {
      CleanIsKept(name);
    }
    key := Repair(key);
  }

  method Squeeze(text: string) returns (key: string)
    ensures key == Squeezed(text, false, false, MAX_NAME)
  {
    key := [];
    var separator := false;
    var rest := text;
    while rest != []
      invariant |key| < MAX_NAME
      invariant Squeezed(text, false, false, MAX_NAME) == key + Squeezed(rest, separator, key != [], MAX_NAME - |key|)
      decreases |rest|
    {
      if IsNameChar(rest[0]) {
        key, separator := key + [rest[0]], false;
      } else if !separator && key != [] {
        key, separator := key + ['-'], true;
      }
      rest := rest[1..];
      if |key| >= MAX_NAME {
        break;
      }
    }
  }

  method Repair(s: string) returns (key: string)
    ensures key == Repaired(s)
  {
    key := s;
    while key != [] && TrimmedAtEnd(key[|key| - 1])
      invariant TrimEnd(s) == TrimEnd(key)
    {
      key := key[..|key| - 1];
    }
    while key != [] && TrimmedAtStart(key[0])
      invariant TrimStart(TrimEnd(s)) == TrimStart(key)
    {
      key := key[1..];
    }
    if key == [] || key == "." || key == ".." {
      key := "desktop";
    }
  }
}
