/** The command line shown for a task, and the words a POSIX shell reads back from it. */
module ShellQuote {
  import opened Wrappers

  datatype Task =
    | CommandTask(program: string, arguments: seq<string>)
    | ShellTask(command: string)
    | AgentTask(prompt: string)

  /** Every single quote becomes: close the quotes, an escaped quote, open them again. */
  function Escaped(value: string): string {
    if value == "" then ""
    else (if value[0] == '\'' then "'\\''" else [value[0]]) + Escaped(value[1..])
  }

  function Quote(value: string): string {
    "'" + Escaped(value) + "'"
  }

  function Join(words: seq<string>): string {
    if words == [] then ""
    else if |words| == 1 then words[0]
    else words[0] + (" " + Join(words[1..]))
  }

  function Quoted(words: seq<string>): (r: seq<string>)
    ensures |r| == |words| && forall i :: 0 <= i < |r| ==> r[i] == Quote(words[i])
  {
    if words == [] then [] else [Quote(words[0])] + Quoted(words[1..])
  }

  function TaskToCommand(t: Task): string {
    match t
    case CommandTask(program, arguments) => Join(Quoted([program] + arguments))
    case ShellTask(command) => command
    case AgentTask(_) => "(Pi agent task)"
  }

  // ---------------------------------------------------------------- the shell's reading

  /** Characters that mean more than themselves outside quotes: operators, expansions, double quotes. */
  predicate IsSpecial(c: char) {
    c in "|&;<>()$`\"\n*?[~=%#"
  }

  /**
   Token recognition with single quotes and backslashes (sections 2.2.1, 2.2.2 and 2.3 of the POSIX Shell
   Command Language) followed by quote removal.  `word` is the token under construction, if one has
   begun; the result is None where quoting is unfinished or a special character stands unquoted.
   */
  function Words(s: string, word: Option<string>, inQuotes: bool): Option<seq<string>>
    decreases |s|
  {
    if s == "" then
      if inQuotes then None else Some(if word.Some? then [word.value] else [])
    else if inQuotes then
      if s[0] == '\'' then Words(s[1..], word, false) else Words(s[1..], Some(Begun(word) + [s[0]]), true)
    else if s[0] == '\'' then Words(s[1..], Some(Begun(word)), true)
    else if s[0] == '\\' then
      if |s| == 1 then None
      else if s[1] == '\n' then Words(s[2..], word, false)
      else Words(s[2..], Some(Begun(word) + [s[1]]), false)
    else if s[0] == ' ' || s[0] == '\t' then
      var rest := Words(s[1..], None, false);
      if rest.Some? && word.Some? then Some([word.value] + rest.value) else rest
    else if IsSpecial(s[0]) then None
    else Words(s[1..], Some(Begun(word) + [s[0]]), false)
  }

  function Begun(word: Option<string>): string {
    if word.Some? then word.value else ""
  }

  function Read(s: string): Option<seq<string>> {
    Words(s, None, false)
  }

  // ---------------------------------------------------------------- quoting is undone by reading

  lemma CloseReads(rest: string, word: string)
    ensures Words("'" + rest, Some(word), true) == Words(rest, Some(word), false)
  {
    assert ("'" + rest)[1..] == rest;
  }

  lemma OpenReads(rest: string, word: string)
    ensures Words("'" + rest, Some(word), false) == Words(rest, Some(word), true)
  {
    assert ("'" + rest)[1..] == rest;
  }

  lemma EscapeReads(rest: string, word: string)
    ensures Words("\\'" + rest, Some(word), false) == Words(rest, Some(word + "'"), false)
  {
    var s := "\\'" + rest;
    assert s[2..] == rest && s[0] == '\\' && s[1] == '\'';
  }

  lemma LiteralReads(c: char, rest: string, word: string)
    requires c != '\''
    ensures Words([c] + rest, Some(word), true) == Words(rest, Some(word + [c]), true)
  {
    assert ([c] + rest)[1..] == rest;
  }

  lemma EndReads(word: string)
    ensures Words("", Some(word), false) == Some([word])
  {
  }

  lemma BlankReads(rest: string, word: string, words: seq<string>)
    requires Words(rest, None, false) == Some(words)
    ensures Words(" " + rest, Some(word), false) == Some([word] + words)
  {
    assert (" " + rest)[1..] == rest;
  }

  lemma EscapedQuoteReads(rest: string, word: string)
    ensures Words("'" + ("\\'" + ("'" + rest)), Some(word), true) == Words(rest, Some(word + "'"), true)
  {
    CloseReads("\\'" + ("'" + rest), word);
    EscapeReads("'" + rest, word);
    OpenReads(rest, word + "'");
  }

  /** What follows an opening quote. */
  function Inside(value: string, rest: string): string {
    Escaped(value) + ("'" + rest)
  }

  lemma InsideText(value: string, rest: string)
    requires value != ""
    ensures value[0] == '\'' ==> Inside(value, rest) == "'" + ("\\'" + ("'" + Inside(value[1..], rest)))
    ensures value[0] != '\'' ==> Inside(value, rest) == [value[0]] + Inside(value[1..], rest)
  {
    assert "'\\''" == "'" + ("\\'" + "'");
  }

  lemma InsideStep(value: string, rest: string, word: string)
    requires value != ""
    ensures
      Words(Inside(value, rest), Some(word), true) ==
      Words(Inside(value[1..], rest), Some(word + [value[0]]), true)
  {
    hide Words, Inside;
    InsideText(value, rest);
    var more := Inside(value[1..], rest);
    if value[0] == '\'' {
      EscapedQuoteReads(more, word);
      assert word + "'" == word + [value[0]];
    } else {
      LiteralReads(value[0], more, word);
    }
  }

  lemma {:induction false} InsideReads(value: string, rest: string, word: string)
    ensures Words(Inside(value, rest), Some(word), true) == Words(rest, Some(word + value), false)
    decreases |value|
  {
    hide Words, Inside;
    if value == "" {
      InsideEmpty(rest);
      CloseReads(rest, word);
      assert word + value == word;
    } else {
      InsideStep(value, rest, word);
      InsideReads(value[1..], rest, word + [value[0]]);
      Regroup(word, value);
    }
  }

  lemma InsideEmpty(rest: string)
    ensures Inside("", rest) == "'" + rest
  {
    assert Escaped("") + ("'" + rest) == "'" + rest;
  }

  lemma Regroup(word: string, value: string)
    requires value != ""
    ensures (word + [value[0]]) + value[1..] == word + value
  {
  }

  /** A quoted value continues or begins exactly one word with that value, whatever is in it. */
  lemma QuoteReads(value: string, rest: string, word: Option<string>)
    ensures Words(Quote(value) + rest, word, false) == Words(rest, Some(Begun(word) + value), false)
  {
    var s := Quote(value) + rest;
    assert s == "'" + Inside(value, rest);
    assert s[1..] == Inside(value, rest);
    InsideReads(value, rest, Begun(word));
  }

  lemma WordReads(value: string, rest: string)
    ensures Words(Quote(value) + rest, None, false) == Words(rest, Some(value), false)
  {
    QuoteReads(value, rest, None);
    assert "" + value == value;
  }

  lemma LastWordReads(value: string)
    ensures Words(Quote(value), None, false) == Some([value])
  {
    assert Quote(value) + "" == Quote(value);
    WordReads(value, "");
    EndReads(value);
  }

  lemma JoinText(words: seq<string>)
    requires words != []
    ensures |words| == 1 ==> Join(Quoted(words)) == Quote(words[0])
    ensures |words| > 1 ==> Join(Quoted(words)) == Quote(words[0]) + (" " + Join(Quoted(words[1..])))
  {
    hide Quote;
    assert Quoted(words)[1..] == Quoted(words[1..]);
  }

  lemma {:induction false} JoinReads(words: seq<string>)
    requires words != []
    ensures Words(Join(Quoted(words)), None, false) == Some(words)
  {
    hide Words, Join, Quote, Quoted;
    JoinText(words);
    if |words| == 1 {
      LastWordReads(words[0]);
      assert [words[0]] == words;
    } else {
      var tail := Join(Quoted(words[1..]));
      JoinReads(words[1..]);
      WordReads(words[0], " " + tail);
      BlankReads(tail, words[0], words[1..]);
      assert [words[0]] + words[1..] == words;
    }
  }

  /** The shell reads a command task back as its program and arguments, empty ones and quotes included. */
  lemma CommandReadsBack(t: Task)
    requires t.CommandTask?
    ensures Read(TaskToCommand(t)) == Some([t.program] + t.arguments)
  {
    JoinReads([t.program] + t.arguments);
  }

  /** So two command tasks shown alike are the same program with the same arguments. */
  lemma CommandsAreDistinguishable(t: Task, u: Task)
    requires t.CommandTask? && u.CommandTask? && TaskToCommand(t) == TaskToCommand(u)
    ensures t == u
  {
    CommandReadsBack(t);
    CommandReadsBack(u);
    assert ([t.program] + t.arguments)[1..] == t.arguments;
    assert ([u.program] + u.arguments)[1..] == u.arguments;
    assert ([t.program] + t.arguments)[0] == t.program;
    assert ([u.program] + u.arguments)[0] == u.program;
  }
}
