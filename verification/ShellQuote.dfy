/**
 cli/cmd/kusoCli/incident.go: shellQuote, read back by the quoting rules of the POSIX shell
 (IEEE Std 1003.1-2017, Shell Command Language, sections 2.2.1 and 2.2.2).
 */
module ShellQuote {
  import opened Wrappers

  const QUOTED_QUOTE: string := "'\\''"

  function ReplaceQuotes(s: string): string {
    if s == "" then "" else (if s[0] == '\'' then QUOTED_QUOTE else [s[0]]) + ReplaceQuotes(s[1..])
  }

  function Quote(s: string): string {
    "'" + ReplaceQuotes(s) + "'"
  }

  datatype Mode = Between | Unquoted | Quoted

  /** Characters that mean something to the shell, or that quoting other than '...' and \c would need. */
  predicate Special(c: char) {
    c in "|&;<>()$`\"*?[#~=%!{}"
  }

  /**
   The words of a text made of plain characters, backslash escapes and single quotes; None when the text
   ends inside quotes or an escape, or holds a special character outside them.  Whitespace ends a word;
   `word` is the one being read.  A backslash before a newline disappears together with it.
   */
  function Words(text: string, mode: Mode, word: string): Option<seq<string>>
    decreases |text|
  {
    if text == "" then
      match mode
      case Between => Some([])
      case Unquoted => Some([word])
      case Quoted => None
    else
      var c, rest := text[0], text[1..];
      if mode.Quoted? then
        if c == '\'' then Words(rest, Unquoted, word) else Words(rest, Quoted, word + [c])
      else if c == '\'' then Words(rest, Quoted, word)
      else if c == '\\' then
        if rest == "" then None
        else if rest[0] == '\n' then Words(rest[1..], mode, word)
        else Words(rest[1..], Unquoted, word + [rest[0]])
      else if c == ' ' || c == '\t' || c == '\n' then
        var tail := Words(rest, Between, "");
        if mode.Between? || tail.None? then tail else Some([word] + tail.value)
      else if Special(c) then None
      else Words(rest, Unquoted, word + [c])
  }

  /** The four characters that stand for a quote close the quotes, escape a quote and open them again. */
  lemma QuoteStep(rest: string, word: string)
    ensures Words(QUOTED_QUOTE + rest, Quoted, word) == Words(rest, Quoted, word + "'")
  {
    var t := QUOTED_QUOTE + rest;
    assert t[0] == '\'' && t[1] == '\\' && t[2] == '\'' && t[3] == '\'' && t[4..] == rest;
    var t1, t3 := t[1..], t[3..];
    assert t1[0] == '\\' && t1[1..][0] == '\'' && t1[1..][1..] == t3;
    assert t3[0] == '\'' && t3[1..] == rest;
    assert Words(t, Quoted, word) == Words(t1, Unquoted, word) == Words(t3, Unquoted, word + "'");
  }

  lemma PlainStep(c: char, rest: string, word: string)
    requires c != '\''
    ensures Words([c] + rest, Quoted, word) == Words(rest, Quoted, word + [c])
  {
    assert ([c] + rest)[1..] == rest;
  }

  lemma ReplaceStep(s: string, end: string)
    requires s != ""
    ensures ReplaceQuotes(s) + end
         == (if s[0] == '\'' then QUOTED_QUOTE else [s[0]]) + (ReplaceQuotes(s[1..]) + end)
  {
  }

  lemma OneRead(s: string, end: string, word: string)
    requires s != ""
    ensures Words(ReplaceQuotes(s) + end, Quoted, word) == Words(ReplaceQuotes(s[1..]) + end, Quoted, word + [s[0]])
  {
    ReplaceStep(s, end);
    if s[0] == '\'' {
      QuoteStep(ReplaceQuotes(s[1..]) + end, word);
    } else {
      PlainStep(s[0], ReplaceQuotes(s[1..]) + end, word);
    }
  }

  lemma EndRead(tail: string, word: string)
    ensures Words("" + ("'" + tail), Quoted, word) == Words(tail, Unquoted, word)
  {
    assert "" + ("'" + tail) == "'" + tail && ("'" + tail)[1..] == tail;
  }

  lemma WordGrows(word: string, s: string)
    requires s != ""
    ensures (word + [s[0]]) + s[1..] == word + s
  {
  }

  /** Inside the quotes the reader collects exactly the original characters. */
  lemma {:induction false} QuotedReads(s: string, word: string, tail: string)
    ensures Words(ReplaceQuotes(s) + ("'" + tail), Quoted, word) == Words(tail, Unquoted, word + s)
    decreases |s|
  {
    if s == "" {
      EndRead(tail, word);
      assert word + s == word;
    } else {
      OneRead(s, "'" + tail, word);
      QuotedReads(s[1..], word + [s[0]], tail);
      WordGrows(word, s);
    }
  }

  /**
   Wherever a quoted text stands outside quotes, it adds exactly the original characters to the word being
   read, whatever they are, and the shell goes on outside quotes with what follows.
   */
  lemma QuotedInContext(s: string, mode: Mode, word: string, tail: string)
    requires !mode.Quoted?
    ensures Words(Quote(s) + tail, mode, word) == Words(tail, Unquoted, word + s)
  {
    var inner := ReplaceQuotes(s) + ("'" + tail);
    assert Quote(s) + tail == "'" + inner;
    assert ("'" + inner)[1..] == inner;
    QuotedReads(s, word, tail);
  }

  /** On its own it is one word, equal to the original. */
  lemma QuoteRoundTrip(s: string)
    ensures Words(Quote(s), Between, "") == Some([s])
  {
    QuotedInContext(s, Between, "", "");
    assert Quote(s) + "" == Quote(s) && "" + s == s;
  }
}
