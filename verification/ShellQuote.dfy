/** The command line the test client hands to `sh -c`, and how a POSIX shell splits it into words. */
module ShellQuote {
  import opened Wrappers

  // ---------------------------------------------------------------- reading words, as the shell does

  /** Unquoted, after a backslash, inside single quotes, or at something that is not a plain word. */
  datatype Mode = Unquoted | Escaped | Quoted | Rejected

  /** The words read so far, the one being read if any, and the quoting in force. */
  datatype Lexer = Lexer(words: seq<string>, word: Option<string>, mode: Mode)
  {
    /** The word in progress grows by `s`. */
    function Grow(s: string): Lexer {
      this.(word := Some((match word case Some(w) => w case None => "") + s))
    }

    /** The word in progress, if any, is complete. */
    function Delimit(): Lexer {
      match word case None => this case Some(w) => Lexer(words + [w], None, mode)
    }
  }

  const START := Lexer([], None, Unquoted)

  /** Characters that mean something to the shell outside quotes (section 2.2). */
  predicate Special(c: char) {
    || c == '|' || c == '&' || c == ';' || c == '<' || c == '>' || c == '(' || c == ')' || c == '$'
    || c == '`' || c == '"' || c == '\n' || c == '*' || c == '?' || c == '[' || c == '#' || c == '~'
    || c == '=' || c == '%'
  }

  /**
   One character, by sections 2.2.1, 2.2.2 and 2.3 of the Shell Command Language, POSIX.1-2017.
   Operators, expansions and double quotes lead to `Rejected`.
   */
  function Step(l: Lexer, c: char): Lexer {
    match l.mode
    case Rejected => l
    case Quoted => if c == '\'' then l.(mode := Unquoted) else l.Grow([c])
    case Escaped => if c == '\n' then l.(mode := Unquoted) else l.Grow([c]).(mode := Unquoted)
    case Unquoted =>
      if c == ' ' || c == '\t' then l.Delimit()
      else if c == '\'' then l.Grow("").(mode := Quoted)
      else if c == '\\' then l.(mode := Escaped)
      else if Special(c) then l.(mode := Rejected)
      else l.Grow([c])
  }

  function Read(l: Lexer, s: string): Lexer {
    if s == "" then l else Step(Read(l, s[..|s| - 1]), s[|s| - 1])
  }

  /** The words of `s`, if it consists of words only and all quotes are closed. */
  function Words(s: string): Option<seq<string>> {
    var l := Read(START, s);
    if l.mode.Unquoted? then Some(l.Delimit().words) else None
  }

  lemma {:induction false} ReadConcat(l: Lexer, a: string, b: string)
    ensures Read(l, a + b) == Read(Read(l, a), b)
  {
    if b == "" {
      assert a + b == a;
    } else {
      assert (a + b)[..|a + b| - 1] == a + b[..|b| - 1];
      ReadConcat(l, a, b[..|b| - 1]);
    }
  }

  lemma ReadChar(l: Lexer, c: char)
    ensures Read(l, [c]) == Step(l, c)
  {
  }

  // ---------------------------------------------------------------- quoting

  /** The body of a quoted word: each quote is closed, escaped and reopened. */
  function Escape(input: string): string {
    if input == "" then ""
    else Escape(input[..|input| - 1])
         + (if input[|input| - 1] == '\'' then "'\\''" else [input[|input| - 1]])
  }

  function Quote(input: string): string {
    "'" + Escape(input) + "'"
  }

  lemma {:induction false} ReadEscaped(words: seq<string>, word: string, input: string)
    ensures Read(Lexer(words, Some(word), Quoted), Escape(input)) == Lexer(words, Some(word + input), Quoted)
  {
    if input == "" {
      assert word + input == word;
    } else {
      var init, c := input[..|input| - 1], input[|input| - 1];
      ReadEscaped(words, word, init);
      assert word + init + [c] == word + input;
      ReadConcat(Lexer(words, Some(word), Quoted), Escape(init), if c == '\'' then "'\\''" else [c]);
      if c == '\'' {
        ReadReopened(words, word + init);
      } else {
        ReadChar(Lexer(words, Some(word + init), Quoted), c);
      }
    }
  }

  /** Close the quotes, escape a quote, reopen them. */
  lemma ReadReopened(words: seq<string>, word: string)
    ensures Read(Lexer(words, Some(word), Quoted), "'\\''") == Lexer(words, Some(word + "'"), Quoted)
  {
    var l := Lexer(words, Some(word), Quoted);
    ReadChar(l, '\'');
    ReadConcat(l, "'", "\\");
    ReadChar(l.(mode := Unquoted), '\\');
    assert "'" + "\\" == "'\\";
    ReadConcat(l, "'\\", "'");
    ReadChar(l.(mode := Escaped), '\'');
    assert "'\\" + "'" == "'\\'";
    ReadConcat(l, "'\\'", "'");
    ReadChar(Lexer(words, Some(word + "'"), Unquoted), '\'');
    assert "'\\'" + "'" == "'\\''";
    assert word + "'" + "" == word + "'";
  }

  /** A quoted string, whatever it holds, adds exactly itself to the word being read. */
  lemma ReadQuote(words: seq<string>, word: Option<string>, input: string)
    ensures Read(Lexer(words, word, Unquoted), Quote(input))
         == Lexer(words, Some((match word case Some(w) => w case None => "") + input), Unquoted)
  {
    var l, start := Lexer(words, word, Unquoted), match word case Some(w) => w case None => "";
    assert start + "" == start;
    ReadChar(l, '\'');
    ReadEscaped(words, start, input);
    ReadConcat(l, "'", Escape(input));
    ReadConcat(l, "'" + Escape(input), "'");
    ReadChar(Lexer(words, Some(start + input), Quoted), '\'');
  }

  /** Any string survives quoting as a single word. */
  lemma QuoteRoundTrip(input: string)
    ensures Words(Quote(input)) == Some([input])
  {
    ReadQuote([], None, input);
    assert "" + input == input && [] + [input] == [input];
  }

  predicate Plain(s: string) {
    s != "" && forall i | 0 <= i < |s| :: PlainChar(s[i])
  }

  predicate PlainChar(c: char) {
    c != ' ' && c != '\t' && c != '\'' && c != '\\' && !Special(c)
  }

  lemma StepPlain(words: seq<string>, word: Option<string>, c: char)
    requires PlainChar(c)
    ensures Step(Lexer(words, word, Unquoted), c)
         == Lexer(words, Some((match word case Some(w) => w case None => "") + [c]), Unquoted)
  {
  }

  lemma {:induction false} ReadPlain(words: seq<string>, s: string)
    requires Plain(s)
    ensures Read(Lexer(words, None, Unquoted), s) == Lexer(words, Some(s), Unquoted)
  {
    var init, c := s[..|s| - 1], s[|s| - 1];
    if init == "" {
      StepPlain(words, None, c);
      assert "" + [c] == s;
    } else {
      assert Plain(init);
      ReadPlain(words, init);
      StepPlain(words, Some(init), c);
      assert init + [c] == s;
    }
  }

  /** A plain word and a blank after a complete word: both words are done. */
  lemma ReadFlag(words: seq<string>, s: string, flag: string, text: string)
    requires Read(START, s) == Lexer(words, None, Unquoted) && Plain(flag) && text == s + flag + " "
    ensures Read(START, text) == Lexer(words + [flag], None, Unquoted)
  {
    ReadPlain(words, flag);
    ReadConcat(START, s, flag);
    ReadConcat(START, s + flag, " ");
    ReadChar(Lexer(words, Some(flag), Unquoted), ' ');
  }

  lemma ReadBlank(words: seq<string>, word: string, s: string)
    requires Read(START, s) == Lexer(words, Some(word), Unquoted)
    ensures Read(START, s + " ") == Lexer(words + [word], None, Unquoted)
  {
  }

  lemma ReadArgument(words: seq<string>, s: string, argument: string)
    requires Read(START, s) == Lexer(words, None, Unquoted)
    ensures Read(START, s + Quote(argument)) == Lexer(words, Some(argument), Unquoted)
  {
    ReadConcat(START, s, Quote(argument));
    ReadQuote(words, None, argument);
    assert "" + argument == argument;
  }

  // ---------------------------------------------------------------- what the reader refuses

  lemma {:induction false} RejectedForGood(l: Lexer, s: string)
    requires l.mode.Rejected?
    ensures Read(l, s).mode.Rejected?
  {
    if s != "" { RejectedForGood(l, s[..|s| - 1]); }
  }

  /** Text with an operator, an expansion or a double quote outside quotes has no words. */
  lemma SpecialRefused(a: string, c: char, b: string)
    requires Read(START, a).mode.Unquoted? && Special(c)
    ensures Words(a + [c] + b) == None
  {
    ReadConcat(START, a + [c], b);
    OneMore(a, c);
    StepSpecial(Read(START, a), c);
    RejectedForGood(Read(START, a + [c]), b);
    NoWords(a + [c] + b);
  }

  lemma StepSpecial(l: Lexer, c: char)
    requires l.mode.Unquoted? && Special(c)
    ensures Step(l, c).mode.Rejected?
  {
  }

  lemma NoWords(s: string)
    requires !Read(START, s).mode.Unquoted?
    ensures Words(s) == None
  {
  }

  lemma OneMore(a: string, c: char)
    ensures Read(START, a + [c]) == Step(Read(START, a), c)
  {
    ReadConcat(START, a, [c]);
    ReadChar(Read(START, a), c);
  }

  lemma {:induction false} StaysQuoted(l: Lexer, s: string)
    requires l.mode.Quoted? && '\'' !in s
    ensures Read(l, s).mode.Quoted?
  {
    if s != "" {
      assert s[|s| - 1] in s && forall c | c in s[..|s| - 1] :: c in s;
      StaysQuoted(l, s[..|s| - 1]);
    }
  }

  /** Nor has text that ends inside quotes. */
  lemma OpenQuoteRefused(a: string, b: string)
    requires Read(START, a).mode.Unquoted? && '\'' !in b
    ensures Words(a + ['\''] + b) == None
  {
    ReadConcat(START, a + ['\''], b);
    OneMore(a, '\'');
    StaysQuoted(Read(START, a + ['\'']), b);
    NoWords(a + ['\''] + b);
  }

  // ---------------------------------------------------------------- the command line of serve

  const PREFIX := "tail -f /dev/null | RUST_BACKTRACE=full RUST_LOG=warn,codex_=trace "

  /** The words that follow the binary for these overrides. */
  function Overrides(overrides: seq<string>): seq<string> {
    if overrides == [] then []
    else Overrides(overrides[..|overrides| - 1]) + ["--config", overrides[|overrides| - 1]]
  }

  /** The words the shell should see after the pipe and the environment settings. */
  function Arguments(bin: string, overrides: seq<string>, listen: string): seq<string> {
    [bin] + Overrides(overrides) + ["app-server", "--listen", listen]
  }

  /** The shell sees exactly the binary, the overrides and the listen URL, whatever they contain. */
  method CommandLine(bin: string, overrides: seq<string>, listen: string) returns (cmdline: string)
    ensures PREFIX <= cmdline && Words(cmdline[|PREFIX|..]) == Some(Arguments(bin, overrides, listen))
  {
    cmdline := AppendArguments(PREFIX, bin, overrides, listen);
  }

  method AppendArguments(prefix: string, bin: string, overrides: seq<string>, listen: string) returns (cmdline: string)
    ensures prefix <= cmdline && Words(cmdline[|prefix|..]) == Some(Arguments(bin, overrides, listen))
  {
    ghost var args;
    cmdline, args := AppendOverrides(prefix, bin, overrides);
    ReadListen([bin] + Overrides(overrides), args, listen);
    TailAfter(prefix, args, " app-server --listen ", Quote(listen));
    cmdline := cmdline + " app-server --listen " + Quote(listen);
  }

  method AppendOverrides(prefix: string, bin: string, overrides: seq<string>)
    returns (cmdline: string, ghost args: string)
    ensures cmdline == prefix + args && Complete(args, [bin] + Overrides(overrides))
  {
    cmdline := prefix + Quote(bin);
    args := Quote(bin);
    ReadBinary(bin);
    for i := 0 to |overrides|
      invariant cmdline == prefix + args && Complete(args, [bin] + Overrides(overrides[..i]))
    {
      ReadNextOverride(bin, overrides, i, args);
      TailAfter(prefix, args, " --config ", Quote(overrides[i]));
      cmdline := cmdline + " --config " + Quote(overrides[i]);
      args := args + " --config " + Quote(overrides[i]);
    }
    assert overrides[..|overrides|] == overrides;
  }

  lemma TailAfter(prefix: string, args: string, flag: string, value: string)
    ensures prefix + args + flag + value == prefix + (args + flag + value)
    ensures (prefix + args + flag + value)[|prefix|..] == args + flag + value
  {
  }

  lemma ReadBinary(bin: string)
    ensures Complete(Quote(bin), [bin] + Overrides([]))
  {
    ReadArgument([], "", bin);
    assert "" + Quote(bin) == Quote(bin);
  }

  lemma ReadNextOverride(bin: string, overrides: seq<string>, i: nat, args: string)
    requires i < |overrides| && Complete(args, [bin] + Overrides(overrides[..i]))
    ensures Complete(args + " --config " + Quote(overrides[i]), [bin] + Overrides(overrides[..i + 1]))
  {
    assert overrides[..i + 1][..i] == overrides[..i];
    assert [bin] + Overrides(overrides[..i]) + ["--config", overrides[i]] == [bin] + Overrides(overrides[..i + 1]);
    ReadOverride([bin] + Overrides(overrides[..i]), args, overrides[i]);
  }

  /** `s` reads as these words, the last of them still open. */
  predicate Complete(s: string, words: seq<string>) {
    words != [] && Read(START, s) == Lexer(words[..|words| - 1], Some(words[|words| - 1]), Unquoted)
  }

  lemma ReadOverride(words: seq<string>, args: string, value: string)
    requires Complete(args, words)
    ensures Complete(args + " --config " + Quote(value), words + ["--config", value])
  {
    var flag := "--config";
    ReadBlank(words[..|words| - 1], words[|words| - 1], args);
    assert words[..|words| - 1] + [words[|words| - 1]] == words;
    assert args + " --config " == args + " " + flag + " ";
    ReadFlag(words, args + " ", flag, args + " --config ");
    ReadArgument(words + [flag], args + " --config ", value);
    assert words + [flag, value] == words + [flag] + [value];
  }

  lemma ReadListen(words: seq<string>, args: string, listen: string)
    requires Complete(args, words)
    ensures Words(args + " app-server --listen " + Quote(listen)) == Some(words + ["app-server", "--listen", listen])
  {
    TwoFlags(args, " ", "app-server", "--listen", " app-server --listen ");
    ReadTwoFlags(words, args, "app-server", "--listen", listen);
  }

  lemma TwoFlags(args: string, blank: string, first: string, second: string, flags: string)
    requires flags == blank + first + blank + second + blank
    ensures args + flags == args + blank + first + blank + second + blank
  {
  }

  lemma ReadTwoFlags(words: seq<string>, args: string, first: string, second: string, value: string)
    requires Complete(args, words) && Plain(first) && Plain(second)
    ensures Words(args + " " + first + " " + second + " " + Quote(value)) == Some(words + [first, second, value])
  {
    var s1 := args + " ";
    var s2 := s1 + first + " ";
    var s3 := s2 + second + " ";
    ReadBlank(words[..|words| - 1], words[|words| - 1], args);
    assert words[..|words| - 1] + [words[|words| - 1]] == words;
    ReadFlag(words, s1, first, s2);
    ReadFlag(words + [first], s2, second, s3);
    ReadArgument(words + [first] + [second], s3, value);
    WordsOf(words + [first] + [second], value, s3 + Quote(value));
    assert words + [first] + [second] + [value] == words + [first, second, value];
  }

  lemma WordsOf(words: seq<string>, last: string, s: string)
    requires Read(START, s) == Lexer(words, Some(last), Unquoted)
    ensures Words(s) == Some(words + [last])
  {
  }
}
