/** Greedy word wrapping of the Observatory's text columns, and why no layout needs fewer lines. */
module WordWrap {

  type Word = seq<char>

  /** A word cut to the width of a line. */
  function Cut(w: Word, width: nat): (c: Word)
    ensures c <= w && |c| == (if |w| < width then |w| else width)
  {
    if |w| <= width then w else w[..width]
  }

  function CutAll(ws: seq<Word>, width: nat): (cs: seq<Word>)
    ensures |cs| == |ws| && forall i :: 0 <= i < |ws| ==> cs[i] == Cut(ws[i], width)
  {
    seq(|ws|, i requires 0 <= i < |ws| => Cut(ws[i], width))
  }

  /** Words separated by single spaces. */
  function Join(ws: seq<Word>): seq<char> {
    if ws == [] then [] else if |ws| == 1 then ws[0] else Join(ws[..|ws| - 1]) + [' '] + ws[|ws| - 1]
  }

  function Flatten(lines: seq<seq<Word>>): seq<Word> {
    if lines == [] then [] else Flatten(lines[..|lines| - 1]) + lines[|lines| - 1]
  }

  /** A layout of the words: every line holds at least one of them and fits the width. */
  ghost predicate Layout(lines: seq<seq<Word>>, ws: seq<Word>, width: nat) {
    && Flatten(lines) == ws
    && forall i :: 0 <= i < |lines| ==> lines[i] != [] && |Join(lines[i])| <= width
  }

  function JoinAll(lines: seq<seq<Word>>): (text: seq<seq<char>>)
    ensures |text| == |lines| && forall i :: 0 <= i < |lines| ==> text[i] == Join(lines[i])
  {
    seq(|lines|, i requires 0 <= i < |lines| => Join(lines[i]))
  }

  /** No line has room for the word that begins the next one. */
  ghost predicate Full(lines: seq<seq<Word>>, width: nat)
    requires forall i :: 0 <= i < |lines| ==> lines[i] != []
  {
    forall i :: 0 <= i < |lines| - 1 ==> |Join(lines[i] + [lines[i + 1][0]])| > width
  }

  // ----- How wide a line is

  function Letters(ws: seq<Word>): nat {
    if ws == [] then 0 else Letters(ws[..|ws| - 1]) + |ws[|ws| - 1]|
  }

  lemma {:induction false} JoinWidth(ws: seq<Word>)
    ensures |Join(ws)| == Letters(ws) + if ws == [] then 0 else |ws| - 1
  {
    if |ws| == 1 {
      assert ws[..0] == [];
    } else if |ws| > 1 {
      JoinWidth(ws[..|ws| - 1]);
    }
  }

  lemma {:induction false} LettersConcat(a: seq<Word>, b: seq<Word>)
    ensures Letters(a + b) == Letters(a) + Letters(b)
  {
    if b == [] {
      assert a + b == a;
    } else {
      assert (a + b)[..|a + b| - 1] == a + b[..|b| - 1];
      LettersConcat(a, b[..|b| - 1]);
    }
  }

  /** Words taken out of the middle of a line make a narrower line. */
  lemma PartIsNarrower(a: seq<Word>, part: seq<Word>, b: seq<Word>)
    ensures |Join(part)| <= |Join(a + part + b)|
  {
    LettersConcat(a, part);
    LettersConcat(a + part, b);
    JoinWidth(part);
    JoinWidth(a + part + b);
  }

  lemma JoinSnoc(ws: seq<Word>, w: Word)
    ensures Join(ws + [w]) == if ws == [] then w else Join(ws) + [' '] + w
  {
    assert (ws + [w])[..|ws|] == ws;
  }

  // ----- Lines of a layout are consecutive ranges of the words

  lemma FlattenSnoc(lines: seq<seq<Word>>, line: seq<Word>)
    ensures Flatten(lines + [line]) == Flatten(lines) + line
  {
    assert (lines + [line])[..|lines|] == lines;
  }

  lemma {:induction false} FlattenPrefix(lines: seq<seq<Word>>, k: nat)
    requires k <= |lines|
    ensures Flatten(lines[..k]) <= Flatten(lines)
  {
    if k == |lines| {
      assert lines[..k] == lines;
    } else {
      FlattenPrefix(lines[..|lines| - 1], k);
      assert lines[..|lines| - 1][..k] == lines[..k];
    }
  }

  /** How many words the first `k` lines hold. */
  ghost function Held(lines: seq<seq<Word>>, k: nat): nat
    requires k <= |lines|
  {
    |Flatten(lines[..k])|
  }

  lemma LineIsRange(lines: seq<seq<Word>>, k: nat)
    requires k < |lines|
    ensures Held(lines, k) + |lines[k]| == Held(lines, k + 1) <= |Flatten(lines)|
    ensures lines[k] == Flatten(lines)[Held(lines, k)..Held(lines, k + 1)]
  {
    assert lines[..k + 1] == lines[..k] + [lines[k]];
    FlattenSnoc(lines[..k], lines[k]);
    FlattenPrefix(lines, k + 1);
  }

  // ----- Full lines stay ahead of every other layout

  lemma RangeFits(ws: seq<Word>, p: nat, i: nat, j: nat, q: nat)
    requires p <= i <= j <= q <= |ws|
    ensures |Join(ws[i..j])| <= |Join(ws[p..q])|
  {
    assert ws[p..q] == ws[p..i] + ws[i..j] + ws[j..q];
    PartIsNarrower(ws[p..i], ws[i..j], ws[j..q]);
  }

  lemma LineAndNextWord(lines: seq<seq<Word>>, k: nat)
    requires 0 < k < |lines| && lines[k] != []
    ensures Held(lines, k) < |Flatten(lines)| && Held(lines, k - 1) <= Held(lines, k)
    ensures lines[k - 1] + [lines[k][0]] == Flatten(lines)[Held(lines, k - 1)..Held(lines, k) + 1]
  {
    LineIsRange(lines, k - 1);
    LineIsRange(lines, k);
    assert Flatten(lines)[Held(lines, k)] == lines[k][0];
    RangeSnoc(Flatten(lines), Held(lines, k - 1), Held(lines, k));
  }

  lemma RangeSnoc(ws: seq<Word>, i: nat, j: nat)
    requires i <= j < |ws|
    ensures ws[i..j] + [ws[j]] == ws[i..j + 1]
  {
  }

  /** A full line reaches at least as far as any other line that starts no later. */
  lemma FullReachesFarther(full: seq<seq<Word>>, ws: seq<Word>, width: nat, k: nat, p: nat, q: nat)
    requires Layout(full, ws, width) && Full(full, width) && 0 < k <= |full|
    requires p <= q <= |ws| && |Join(ws[p..q])| <= width
    requires p <= Held(full, k - 1)
    ensures q <= Held(full, k)
  {
    if k == |full| {
      assert full[..k] == full;
    } else if Held(full, k) < q {
      NextWordOverflows(full, ws, width, k);
      RangeFits(ws, p, Held(full, k - 1), Held(full, k) + 1, q);
    }
  }

  lemma NextWordOverflows(full: seq<seq<Word>>, ws: seq<Word>, width: nat, k: nat)
    requires Layout(full, ws, width) && Full(full, width) && 0 < k < |full|
    ensures Held(full, k - 1) <= Held(full, k) < |ws|
    ensures |Join(ws[Held(full, k - 1)..Held(full, k) + 1])| > width
  {
    LineAndNextWord(full, k);
  }

  lemma {:induction false} FullStaysAhead(
    full: seq<seq<Word>>, other: seq<seq<Word>>, ws: seq<Word>, width: nat, k: nat
  )
    requires Layout(full, ws, width) && Full(full, width) && Layout(other, ws, width)
    requires k <= |full| && k <= |other|
    ensures Held(full, k) >= Held(other, k)
  {
    if k > 0 {
      FullStaysAhead(full, other, ws, width, k - 1);
      LineIsRange(other, k - 1);
      FullReachesFarther(full, ws, width, k, Held(other, k - 1), Held(other, k));
    }
  }

  /** A layout of full lines has the fewest lines of all layouts of the same words. */
  lemma FullIsShortest(full: seq<seq<Word>>, other: seq<seq<Word>>, ws: seq<Word>, width: nat)
    requires Layout(full, ws, width) && Full(full, width) && Layout(other, ws, width)
    ensures |full| <= |other|
  {
    if |full| > |other| {
      FullStaysAhead(full, other, ws, width, |other|);
      assert other[..|other|] == other;
      LineIsRange(full, |other|);
    }
  }

  // ----- The loop

  /** The finished lines and the line being filled. */
  ghost function Lines(done: seq<seq<Word>>, group: seq<Word>): seq<seq<Word>> {
    if group == [] then done else done + [group]
  }

  ghost predicate Filling(done: seq<seq<Word>>, group: seq<Word>, ws: seq<Word>, width: nat) {
    && Layout(Lines(done, group), ws, width) && Full(Lines(done, group), width)
    && (group == [] ==> done == [])
  }

  lemma SameHeads(before: seq<seq<Word>>, after: seq<seq<Word>>, width: nat)
    requires forall i :: 0 <= i < |before| ==> before[i] != []
    requires forall i :: 0 <= i < |after| ==> after[i] != []
    requires Full(before, width) && |after| == |before|
    requires forall i :: 0 <= i < |after| ==> after[i][0] == before[i][0] && (i < |after| - 1 ==> after[i] == before[i])
    ensures Full(after, width)
  {
  }

  lemma FirstWord(ws: seq<Word>, width: nat, w: Word)
    requires Filling([], [], ws, width) && |w| <= width
    ensures Filling([], [w], ws + [w], width)
  {
    assert [] + [[w]] == [[w]] && [[w]][..0] == [];
    assert Flatten([[w]]) == [w] && Join([w]) == w && ws == [];
  }

  lemma AddToLine(done: seq<seq<Word>>, group: seq<Word>, ws: seq<Word>, width: nat, w: Word)
    requires Filling(done, group, ws, width) && group != [] && |Join(group + [w])| <= width
    ensures Filling(done, group + [w], ws + [w], width)
  {
    AddToLayout(done, group, ws, width, w);
    var before, after := done + [group], done + [group + [w]];
    assert forall i :: 0 <= i < |done| ==> after[i] == before[i];
    SameHeads(before, after, width);
  }

  lemma AddToLayout(done: seq<seq<Word>>, group: seq<Word>, ws: seq<Word>, width: nat, w: Word)
    requires Layout(done + [group], ws, width) && |Join(group + [w])| <= width
    ensures Layout(done + [group + [w]], ws + [w], width)
  {
    FlattenMore(done, group, w);
    var before, after := done + [group], done + [group + [w]];
    assert forall i :: 0 <= i < |done| ==> after[i] == before[i];
  }

  lemma FlattenMore(done: seq<seq<Word>>, group: seq<Word>, w: Word)
    ensures Flatten(done + [group + [w]]) == Flatten(done + [group]) + [w]
  {
    FlattenSnoc(done, group);
    FlattenSnoc(done, group + [w]);
    assert Flatten(done) + (group + [w]) == (Flatten(done) + group) + [w];
  }

  lemma StartLine(done: seq<seq<Word>>, group: seq<Word>, ws: seq<Word>, width: nat, w: Word)
    requires Filling(done, group, ws, width) && group != [] && |w| <= width && |Join(group + [w])| > width
    ensures Filling(done + [group], [w], ws + [w], width)
  {
    var before := done + [group];
    StartLineLayout(before, ws, width, w);
    StartLineFull(before, width, w);
  }

  lemma StartLineLayout(before: seq<seq<Word>>, ws: seq<Word>, width: nat, w: Word)
    requires Layout(before, ws, width) && |w| <= width
    ensures Layout(before + [[w]], ws + [w], width)
  {
    FlattenSnoc(before, [w]);
    assert Join([w]) == w;
  }

  lemma StartLineFull(before: seq<seq<Word>>, width: nat, w: Word)
    requires before != [] && (forall i :: 0 <= i < |before| ==> before[i] != []) && Full(before, width)
    requires |Join(before[|before| - 1] + [w])| > width
    ensures Full(before + [[w]], width)
  {
    var after := before + [[w]];
    forall i | 0 <= i < |after| - 1 ensures |Join(after[i] + [after[i + 1][0]])| > width {
      assert after[i] == before[i];
      if i < |before| - 1 {
        assert after[i + 1] == before[i + 1];
      }
    }
  }

  lemma CutSnoc(ws: seq<Word>, w: Word, width: nat)
    ensures CutAll(ws + [w], width) == CutAll(ws, width) + [Cut(w, width)]
  {
  }

  /** A new line starts when the line being filled has no room for a space and the whole word. */
  predicate Overflows(current: seq<char>, word: Word, width: nat) {
    current != [] && |current| + |word| + 1 > width
  }

  lemma CutOverflows(group: seq<Word>, word: Word, width: nat)
    requires |Join(group)| <= width && (Join(group) == [] <==> group == [])
    ensures Overflows(Join(group), word, width) <==> group != [] && |Join(group + [Cut(word, width)])| > width
  {
    JoinSnoc(group, Cut(word, width));
  }

  lemma {:induction false} JoinNothing(group: seq<Word>)
    requires forall i :: 0 <= i < |group| ==> group[i] != []
    ensures Join(group) == [] <==> group == []
  {
  }

  ghost predicate Progress(done: seq<seq<Word>>, group: seq<Word>, read: seq<Word>, width: nat) {
    && Filling(done, group, CutAll(read, width), width)
    && |Join(group)| <= width
    && forall i :: 0 <= i < |group| ==> group[i] != []
  }

  lemma ProgressSame(done: seq<seq<Word>>, group: seq<Word>, read: seq<Word>, word: Word, width: nat)
    requires Progress(done, group, read, width) && word != [] && width > 0
    requires !Overflows(Join(group), word, width)
    ensures Progress(done, group + [Cut(word, width)], read + [word], width)
  {
    var cut := Cut(word, width);
    JoinNothing(group);
    CutOverflows(group, word, width);
    CutSnoc(read, word, width);
    JoinSnoc(group, cut);
    if group == [] {
      FirstWord(CutAll(read, width), width, cut);
      assert group + [cut] == [cut];
    } else {
      AddToLine(done, group, CutAll(read, width), width, cut);
    }
  }

  lemma ProgressNew(done: seq<seq<Word>>, group: seq<Word>, read: seq<Word>, word: Word, width: nat)
    requires Progress(done, group, read, width) && word != [] && width > 0
    requires Overflows(Join(group), word, width)
    ensures Progress(done + [group], [Cut(word, width)], read + [word], width)
  {
    var cut := Cut(word, width);
    JoinNothing(group);
    CutOverflows(group, word, width);
    CutSnoc(read, word, width);
    StartLine(done, group, CutAll(read, width), width, cut);
    assert Join([cut]) == cut;
  }

  /** What a word adds to the line being filled. */
  function Extend(current: seq<char>, word: Word, width: nat): seq<char> {
    (if current == [] then [] else current + [' ']) + Cut(word, width)
  }

  ghost function NextDone(done: seq<seq<Word>>, group: seq<Word>, word: Word, width: nat): seq<seq<Word>> {
    if Overflows(Join(group), word, width) then done + [group] else done
  }

  ghost function NextGroup(group: seq<Word>, word: Word, width: nat): seq<Word> {
    if Overflows(Join(group), word, width) then [Cut(word, width)] else group + [Cut(word, width)]
  }

  lemma ProgressNext(done: seq<seq<Word>>, group: seq<Word>, read: seq<Word>, word: Word, width: nat)
    requires Progress(done, group, read, width) && word != [] && width > 0
    ensures Progress(NextDone(done, group, word, width), NextGroup(group, word, width), read + [word], width)
  {
    if Overflows(Join(group), word, width) {
      ProgressNew(done, group, read, word, width);
    } else {
      ProgressSame(done, group, read, word, width);
    }
  }

  lemma JoinNextDone(done: seq<seq<Word>>, group: seq<Word>, word: Word, width: nat)
    ensures JoinAll(NextDone(done, group, word, width)) ==
            if Overflows(Join(group), word, width) then JoinAll(done) + [Join(group)] else JoinAll(done)
  {
  }

  lemma JoinExtended(group: seq<Word>, word: Word, width: nat)
    requires Join(group) == [] <==> group == []
    ensures Join(group + [Cut(word, width)]) == Extend(Join(group), word, width)
  {
    JoinSnoc(group, Cut(word, width));
    assert [] + Cut(word, width) == Cut(word, width);
  }

  lemma JoinNextGroup(group: seq<Word>, word: Word, width: nat)
    requires forall i :: 0 <= i < |group| ==> group[i] != []
    ensures Join(NextGroup(group, word, width)) ==
            Extend(if Overflows(Join(group), word, width) then [] else Join(group), word, width)
  {
    if Overflows(Join(group), word, width) {
      JoinExtended([], word, width);
      assert [] + [Cut(word, width)] == [Cut(word, width)];
    } else {
      JoinNothing(group);
      JoinExtended(group, word, width);
    }
  }

  lemma Finish(done: seq<seq<Word>>, group: seq<Word>, words: seq<Word>, width: nat)
    requires Progress(done, group, words, width)
    ensures Join(group) == [] <==> group == []
    ensures var layout := Lines(done, group);
            && Layout(layout, CutAll(words, width), width) && Full(layout, width)
            && JoinAll(layout) == if group == [] then JoinAll(done) else JoinAll(done) + [Join(group)]
  {
    JoinNothing(group);
  }

  /** The lines, and (for the proof) the words on each of them. */
  method Wrap(words: seq<Word>, width: nat) returns (lines: seq<seq<char>>, ghost layout: seq<seq<Word>>)
    requires forall i :: 0 <= i < |words| ==> words[i] != []
    ensures width == 0 ==> lines == []
    ensures width > 0 ==> Layout(layout, CutAll(words, width), width) && lines == JoinAll(layout)
    ensures width > 0 ==> forall other :: Layout(other, CutAll(words, width), width) ==> |lines| <= |other|
  {
    lines, layout := [], [];
    if width == 0 {
      return;
    }
    var current: seq<char> := [];
    ghost var group: seq<Word> := [];
    for k := 0 to |words|
      invariant lines == JoinAll(layout) && current == Join(group)
      invariant Progress(layout, group, words[..k], width)
    {
      var word := words[k];
      assert words[..k + 1] == words[..k] + [word];
      ProgressNext(layout, group, words[..k], word, width);
      JoinNextDone(layout, group, word, width);
      JoinNextGroup(group, word, width);
      layout, group := NextDone(layout, group, word, width), NextGroup(group, word, width);
      if Overflows(current, word, width) {
        lines, current := lines + [current], [];
      }
      current := Extend(current, word, width);
    }
    assert words[..|words|] == words;
    Finish(layout, group, words, width);
    layout := Lines(layout, group);
    if current != [] {
      lines := lines + [current];
    }
    forall other | Layout(other, CutAll(words, width), width) ensures |lines| <= |other| {
      FullIsShortest(layout, other, CutAll(words, width), width);
    }
  }
}
