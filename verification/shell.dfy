/**
 * Just enough of the POSIX shell's word syntax to say when a piece of a
 * command line reaches the command as one argument: single-quoted
 * stretches, backslash escapes, and the blanks and operators that end a
 * word. Double quotes, expansions and globbing are not part of it.
 */
module Shell {
  import opened Strings

  /** Characters that end an unquoted word: blanks and control operators. */
  predicate Delimiter(c: char) {
    c in " \t\n;&|<>()"
  }

  /** A word read from the front of a command line: its value and how many characters it used. */
  datatype Word = Word(value: string, length: nat)

  function Skip(w: Option<Word>, n: nat): Option<Word> {
    match w
    case None => None
    case Some(v) => Some(Word(v.value, v.length + n))
  }

  function Take(c: char, w: Option<Word>, n: nat): Option<Word> {
    match w
    case None => None
    case Some(v) => Some(Word([c] + v.value, v.length + n))
  }

  /**
   * Reads one word from the front of `s`; `quoted` says whether a single
   * quote is open. None when a single quote is never closed.
   */
  function ReadWord(s: string, quoted: bool): (r: Option<Word>)
    ensures r.Some? ==> r.value.length <= |s|
    decreases |s|
  {
    if s == [] then
      if quoted then None else Some(Word([], 0))
    else if quoted then
      if s[0] == '\'' then Skip(ReadWord(s[1..], false), 1)
      else Take(s[0], ReadWord(s[1..], true), 1)
    else if s[0] == '\'' then Skip(ReadWord(s[1..], true), 1)
    else if s[0] == '\\' && |s| >= 2 then Take(s[1], ReadWord(s[2..], false), 2)
    else if Delimiter(s[0]) then Some(Word([], 0))
    else Take(s[0], ReadWord(s[1..], false), 1)
  }

  /**
   * Makes `s` safe to place between single quotes: every quote becomes
   * close-quote, escaped quote, reopen-quote.
   */
  function Escape(s: string): (r: string)
    ensures |r| >= |s|
  {
    if s == [] then []
    else (if s[0] == '\'' then "'\\''" else [s[0]]) + Escape(s[1..])
  }

  /** `s` as one single-quoted shell argument. */
  function Quote(s: string): string {
    "'" + Escape(s) + "'"
  }

  /** A text without single quotes needs no escaping. */
  lemma {:induction false} EscapeKeepsQuoteFree(s: string)
    requires '\'' !in s
    ensures Escape(s) == s
    decreases |s|
  {
    if s != [] {
      assert s == [s[0]] + s[1..];
      EscapeKeepsQuoteFree(s[1..]);
    }
  }

  lemma ReadQuotedChar(c: char, tail: string)
    requires c != '\''
    ensures ReadWord([c] + tail, true) == Take(c, ReadWord(tail, true), 1)
  {
    assert ([c] + tail)[1..] == tail;
  }

  lemma ReadClosingQuote(tail: string)
    ensures ReadWord("'" + tail, true) == Skip(ReadWord(tail, false), 1)
  {
    assert ("'" + tail)[1..] == tail;
  }

  lemma ReadOpeningQuote(tail: string)
    ensures ReadWord("'" + tail, false) == Skip(ReadWord(tail, true), 1)
  {
    assert ("'" + tail)[1..] == tail;
  }

  lemma ReadEscapedChar(c: char, tail: string)
    ensures ReadWord(['\\', c] + tail, false) == Take(c, ReadWord(tail, false), 2)
  {
    assert (['\\', c] + tail)[2..] == tail;
  }

  /** One step of the round trip: an escaped quote inside an open quote reads as a quote. */
  lemma EscapedQuoteStep(tail: string, w: Word)
    requires ReadWord(tail, true) == Some(w)
    ensures ReadWord("'\\''" + tail, true) == Some(Word("'" + w.value, w.length + 4))
  {
    assert "'\\''" + tail == "'" + (['\\', '\''] + ("'" + tail));
    ReadOpeningQuote(tail);
    ReadEscapedChar('\'', "'" + tail);
    ReadClosingQuote(['\\', '\''] + ("'" + tail));
  }

  /** One step of the round trip: any other character inside an open quote reads as itself. */
  lemma PlainCharStep(c: char, tail: string, w: Word)
    requires c != '\''
    requires ReadWord(tail, true) == Some(w)
    ensures ReadWord([c] + tail, true) == Some(Word([c] + w.value, w.length + 1))
  {
    ReadQuotedChar(c, tail);
  }

  /** The round trip's step for a leading quote, given the round trip for the rest. */
  lemma EscapeReadsBackQuote(s: string, rest: string)
    requires s != [] && s[0] == '\''
    requires ReadWord(Escape(s[1..]) + "'" + rest, true) == Some(Word(s[1..], |Escape(s[1..])| + 1))
    ensures ReadWord(Escape(s) + "'" + rest, true) == Some(Word(s, |Escape(s)| + 1))
  {
    var t := s[1..];
    var tail := Escape(t) + "'" + rest;
    assert Escape(s) == "'\\''" + Escape(t);
    assert Escape(s) + "'" + rest == "'\\''" + tail;
    EscapedQuoteStep(tail, Word(t, |Escape(t)| + 1));
    assert "'" + t == s;
  }

  /** The round trip's step for any other leading character, given the round trip for the rest. */
  lemma EscapeReadsBackPlain(s: string, rest: string)
    requires s != [] && s[0] != '\''
    requires ReadWord(Escape(s[1..]) + "'" + rest, true) == Some(Word(s[1..], |Escape(s[1..])| + 1))
    ensures ReadWord(Escape(s) + "'" + rest, true) == Some(Word(s, |Escape(s)| + 1))
  {
    var t := s[1..];
    var tail := Escape(t) + "'" + rest;
    assert Escape(s) == [s[0]] + Escape(t);
    assert Escape(s) + "'" + rest == [s[0]] + tail;
    PlainCharStep(s[0], tail, Word(t, |Escape(t)| + 1));
    assert [s[0]] + t == s;
  }

  /**
   * Inside an open single quote, an escaped text followed by the closing
   * quote reads back as exactly the original text.
   */
  lemma {:induction false} EscapeReadsBack(s: string, rest: string)
    requires rest == [] || Delimiter(rest[0])
    ensures ReadWord(Escape(s) + "'" + rest, true) == Some(Word(s, |Escape(s)| + 1))
    decreases |s|
  {
    if s == [] {
      assert Escape(s) + "'" + rest == "'" + rest;
      ReadClosingQuote(rest);
    } else {
      EscapeReadsBack(s[1..], rest);
      if s[0] == '\'' {
        EscapeReadsBackQuote(s, rest);
      } else {
        EscapeReadsBackPlain(s, rest);
      }
    }
  }

  /** A quoted text, followed by nothing or by a delimiter, is one word whose value is the text. */
  lemma QuoteReadsBack(s: string, rest: string)
    requires rest == [] || Delimiter(rest[0])
    ensures ReadWord(Quote(s) + rest, false) == Some(Word(s, |Quote(s)|))
  {
    assert Quote(s) + rest == "'" + (Escape(s) + "'" + rest);
    ReadOpeningQuote(Escape(s) + "'" + rest);
    EscapeReadsBack(s, rest);
  }

  /**
   * Wrapping a text in single quotes without escaping it does not keep it
   * one word: the text `';id;'` ends the word after two characters, at a
   * command separator.
   */
  lemma BareQuotesSplitWord()
    ensures ReadWord("'" + "';id;'" + "'", false) == Some(Word("", 2))
  {
    var line := "'" + "';id;'" + "'";
    assert line[1..] == "';id;''";
    assert line[1..][1..] == ";id;''";
    assert ReadWord(";id;''", false) == Some(Word([], 0));
  }
}
