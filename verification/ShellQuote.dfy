/**
 Quoting one shell word, against the quoting rules of the POSIX shell (sections 2.2.1 and
 2.2.2 of the Shell Command Language, XCU, POSIX.1-2017).
 */
module ShellQuote {
  import opened Bytes

  /** Every single quote leaves the quotes, is escaped, and re-enters them. */
  function Escaped(s: string): string {
    if s == [] then [] else (if s[0] == '\'' then "'\\''" else [s[0]]) + Escaped(s[1..])
  }

  function SingleQuote(s: string): string { "'" + Escaped(s) + "'" }

  // ----- A POSIX word reader

  /** Where the reader is: between words, inside a word, or inside single quotes. */
  datatype Place = Between | Inside | Quoted

  /** Characters that mean more than themselves when they are not quoted. */
  predicate Special(c: char) { c in "|&;<>()$`\"*?[#~=%\n" }

  predicate Blank(c: char) { c == ' ' || c == '\t' }

  /**
   The words of a command line after `done` and the `word` read so far. None means that some
   character would be interpreted further, or that a quote is left open.
   */
  function Read(s: string, place: Place, word: string, done: seq<string>): Option<seq<string>>
    decreases |s|
  {
    if place == Quoted then
      if s == [] then None
      else if s[0] == '\'' then Read(s[1..], Inside, word, done)
      else Read(s[1..], Quoted, word + [s[0]], done)
    else if s == [] then Some(if place == Inside then done + [word] else done)
    else if s[0] == '\'' then Read(s[1..], Quoted, word, done)
    else if s[0] == '\\' then
      if |s| == 1 then None
      else if s[1] == '\n' then Read(s[2..], place, word, done)
      else Read(s[2..], Inside, word + [s[1]], done)
    else if Blank(s[0]) then
      if place == Inside then Read(s[1..], Between, [], done + [word]) else Read(s[1..], Between, [], done)
    else if Special(s[0]) then None
    else Read(s[1..], Inside, word + [s[0]], done)
  }

  function Words(s: string): Option<seq<string>> { Read(s, Between, [], []) }

  // ----- The reader undoes the quoting

  lemma ReadEscapedQuote(rest: string, word: string, done: seq<string>)
    ensures Read("'\\''" + rest, Quoted, word, done) == Read(rest, Quoted, word + ['\''], done)
  {
    var s := "'\\''" + rest;
    var t := s[1..];
    assert t[0] == '\\' && t[1] == '\'' && t[2..] == ['\''] + rest;
    assert Read(s, Quoted, word, done) == Read(t, Inside, word, done);
    assert Read(t, Inside, word, done) == Read(t[2..], Inside, word + ['\''], done);
    assert (['\''] + rest)[1..] == rest;
  }

  lemma {:induction false} ReadEscaped(s: string, rest: string, word: string, done: seq<string>)
    ensures Read(Escaped(s) + rest, Quoted, word, done) == Read(rest, Quoted, word + s, done)
    decreases |s|
  {
    if s == [] {
      assert Escaped(s) + rest == rest && word + s == word;
    } else {
      var tail := Escaped(s[1..]) + rest;
      assert word + [s[0]] + s[1..] == word + s;
      ReadEscaped(s[1..], rest, word + [s[0]], done);
      if s[0] == '\'' {
        assert Escaped(s) + rest == "'\\''" + tail;
        ReadEscapedQuote(tail, word, done);
      } else {
        assert Escaped(s) + rest == [s[0]] + tail;
        assert ([s[0]] + tail)[1..] == tail;
      }
    }
  }

  /** Quoted text extends the current word by exactly that text, wherever it stands on the line. */
  lemma QuotedReadsAsText(s: string, rest: string, place: Place, word: string, done: seq<string>)
    requires place != Quoted
    ensures Read(SingleQuote(s) + rest, place, word, done) == Read(rest, Inside, word + s, done)
  {
    var line := SingleQuote(s) + rest;
    assert line[0] == '\'' && line[1..] == Escaped(s) + ("'" + rest);
    ReadEscaped(s, "'" + rest, word, done);
    assert ("'" + rest)[0] == '\'' && ("'" + rest)[1..] == rest;
  }

  /** Every text, quoted, is one word equal to the text. */
  lemma QuotedIsOneWord(s: string)
    ensures Words(SingleQuote(s)) == Some([s])
  {
    assert SingleQuote(s) + [] == SingleQuote(s);
    QuotedReadsAsText(s, [], Between, [], []);
    assert [] + s == s && [] + [s] == [s];
  }
}
