/** Quoting a command for a remote shell, and the shell's reading of it. */
module Shell {
  import opened Wrappers

  // --- the suite's side -------------------------------------------------------

  /** `s.replace("'", "'\\''")`. */
  function Escape(s: string): string {
    if s == [] then []
    else (if s[0] == '\'' then "'\\''" else [s[0]]) + Escape(s[1..])
  }

  function Quote(s: string): string {
    "'" + Escape(s) + "'"
  }

  function Sudo(cmd: string): string {
    "sudo bash -c " + Quote(cmd)
  }

  // --- the shell's side -------------------------------------------------------

  /** Reading a line into words: POSIX.1-2017 Shell Command Language, sections 2.2.1, 2.2.2,
      2.2.3 and 2.3. `Between` is blank space, `InWord` an unquoted part of a word, `Escaped`
      follows a backslash, `InSingle` and `InDouble` are inside quotes. */
  datatype Mode = Between | InWord | Escaped | InSingle | InDouble

  /** Characters that, unquoted, do more than stand for themselves. */
  predicate Special(c: char) {
    || c == '|' || c == '&' || c == ';' || c == '<' || c == '>' || c == '(' || c == ')' || c == '$' || c == '`'
    || c == '\n' || c == '*' || c == '?' || c == '[' || c == '#' || c == '~' || c == '=' || c == '%'
    || c == '!' || c == '{' || c == '}'
  }

  /** Characters that stand for themselves. */
  predicate Ordinary(c: char) {
    c != ' ' && c != '\t' && c != '\'' && c != '"' && c != '\\' && !Special(c)
  }

  /** The words of the rest of a line, given the words read so far, the current one and the
      mode. None when a quote is left open or the line is more than a plain list of words
      (an operator, an expansion, a continued line). */
  function Read(input: string, mode: Mode, words: seq<string>, word: string): Option<seq<string>>
    decreases |input|, 1
  {
    if input == [] then
      match mode
      case Between => Some(words)
      case InWord => Some(words + [word])
      case _ => None
    else
      var c, rest := input[0], input[1..];
      match mode
      case Between =>
        if c == ' ' || c == '\t' then Read(rest, Between, words, [])
        else Plain(c, rest, words, [])
      case InWord =>
        if c == ' ' || c == '\t' then Read(rest, Between, words + [word], [])
        else Plain(c, rest, words, word)
      case Escaped => if c == '\n' then None else Read(rest, InWord, words, word + [c])
      case InSingle => if c == '\'' then Read(rest, InWord, words, word) else Read(rest, InSingle, words, word + [c])
      case InDouble =>
        if c == '"' then Read(rest, InWord, words, word)
        else if c == '$' || c == '`' || c == '\\' then None
        else Read(rest, InDouble, words, word + [c])
  }

  /** An unquoted character that is not a blank. */
  function Plain(c: char, rest: string, words: seq<string>, word: string): Option<seq<string>>
    decreases |rest| + 1, 0
  {
    if c == '\'' then Read(rest, InSingle, words, word)
    else if c == '"' then Read(rest, InDouble, words, word)
    else if c == '\\' then Read(rest, Escaped, words, word)
    else if Special(c) then None
    else Read(rest, InWord, words, word + [c])
  }

  function Words(line: string): Option<seq<string>> {
    Read(line, Between, [], [])
  }

  // --- round trips ------------------------------------------------------------

  /** Inside single quotes, the escaped text reads back as the text itself. */
  lemma {:induction false} ReadEscaped(s: string, tail: string, words: seq<string>, word: string)
    ensures Read(Escape(s) + tail, InSingle, words, word) == Read(tail, InSingle, words, word + s)
    decreases |s|
  {
    if s == [] {
      assert Escape(s) + tail == tail && word + s == word;
    } else {
      var more := Escape(s[1..]) + tail;
      ReadEscaped(s[1..], tail, words, word + [s[0]]);
      assert word + [s[0]] + s[1..] == word + s;
      if s[0] == '\'' {
        assert Escape(s) + tail == "'\\''" + more;
        ReadQuoteEscape(more, words, word);
      } else {
        assert (Escape(s) + tail)[1..] == more;
      }
    }
  }

  /** The four characters that stand for one quote. */
  lemma ReadQuoteEscape(more: string, words: seq<string>, word: string)
    ensures Read("'\\''" + more, InSingle, words, word) == Read(more, InSingle, words, word + "'")
  {
    var input := "'\\''" + more;
    assert input[1..] == "\\''" + more;
    assert ("\\''" + more)[1..] == "''" + more;
    assert ("''" + more)[1..] == "'" + more;
    assert ("'" + more)[1..] == more;
    assert Read(input, InSingle, words, word) == Read("\\''" + more, InWord, words, word);
    assert Read("\\''" + more, InWord, words, word) == Read("''" + more, Escaped, words, word);
    assert Read("''" + more, Escaped, words, word) == Read("'" + more, InWord, words, word + ['\'']);
  }

  /** A quoted text, wherever a new word may start, is one more word, equal to the text. */
  lemma QuoteReadsBack(s: string, words: seq<string>)
    ensures Read(Quote(s), Between, words, []) == Some(words + [s])
  {
    assert Quote(s)[1..] == Escape(s) + "'";
    ReadEscaped(s, "'", words, []);
    assert [] + s == s;
    assert "'"[1..] == "";
    assert Read("", InWord, words, s) == Some(words + [s]);
  }

  /** For every text, the shell reads the quoted form as exactly one word, the text. */
  lemma QuoteRoundTrip(s: string)
    ensures Words(Quote(s)) == Some([s])
  {
    QuoteReadsBack(s, []);
    assert [] + [s] == [s];
  }

  /** Different texts never quote alike. */
  lemma QuoteInjective(s: string, t: string)
    requires Quote(s) == Quote(t)
    ensures s == t
  {
    QuoteRoundTrip(s);
    QuoteRoundTrip(t);
    assert [s][0] == [t][0];
  }

  /** A plain word and a blank. */
  lemma {:induction false} ReadPlainWord(w: string, tail: string, words: seq<string>, word: string)
    requires word + w != []
    requires forall k :: 0 <= k < |w| ==> Ordinary(w[k])
    ensures Read(w + " " + tail, if word == [] then Between else InWord, words, word)
            == Read(tail, Between, words + [word + w], [])
    decreases |w|
  {
    if w == [] {
      assert w + " " + tail == " " + tail && (" " + tail)[1..] == tail && word + w == word;
    } else {
      assert (w + " " + tail)[0] == w[0];
      assert (w + " " + tail)[1..] == w[1..] + " " + tail;
      ReadPlainWord(w[1..], tail, words, word + [w[0]]);
      assert word + [w[0]] + w[1..] == word + w;
    }
  }

  /** `sudo` always runs the four words sudo, bash, -c and the command. */
  lemma SudoRunsTheCommand(cmd: string)
    ensures Words(Sudo(cmd)) == Some(["sudo", "bash", "-c", cmd])
  {
    var q := Quote(cmd);
    assert Sudo(cmd) == "sudo" + " " + ("bash" + " " + ("-c" + " " + q));
    ReadPlainWord("sudo", "bash" + " " + ("-c" + " " + q), [], []);
    ReadPlainWord("bash", "-c" + " " + q, ["sudo"], []);
    ReadPlainWord("-c", q, ["sudo", "bash"], []);
    QuoteReadsBack(cmd, ["sudo", "bash", "-c"]);
    assert "" + "sudo" == "sudo" && "" + "bash" == "bash" && "" + "-c" == "-c";
    assert [] + ["sudo"] == ["sudo"];
    assert ["sudo"] + ["bash"] == ["sudo", "bash"];
    assert ["sudo", "bash"] + ["-c"] == ["sudo", "bash", "-c"];
    assert ["sudo", "bash", "-c"] + [cmd] == ["sudo", "bash", "-c", cmd];
  }
}
