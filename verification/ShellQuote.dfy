/** Quoting an argument for a shell command line, and the reading a POSIX shell gives it back. */
module ShellQuote {
  import opened Options

  const SPLICE := "'\\''"

  predicate InertChar(c: char) {
    'A' <= c <= 'Z' || 'a' <= c <= 'z' || '0' <= c <= '9' || c in "@%+=:,./_-"
  }

  predicate InertWord(s: string) { s != "" && forall c :: c in s ==> InertChar(c) }

  /** `text.split(sep)`. */
  function Split(text: string, sep: char): (r: seq<string>)
    ensures r != []
  {
    if text == "" then [""]
    else
      var rest := Split(text[1..], sep);
      if text[0] == sep then [""] + rest else [[text[0]] + rest[0]] + rest[1..]
  }

  /** `parts.join(glue)`. */
  function Join(parts: seq<string>, glue: string): string {
    if parts == [] then "" else if |parts| == 1 then parts[0] else parts[0] + glue + Join(parts[1..], glue)
  }

  function QuoteShellArg(text: string): string {
    if InertWord(text) && text[0] != '-' then text else "'" + Join(Split(text, '\''), SPLICE) + "'"
  }

  function CommandLine(args: seq<string>): string {
    Join(seq(|args|, i requires 0 <= i < |args| => QuoteShellArg(args[i])), " ")
  }

  // ---- A POSIX reader (XCU 2.2 Quoting, 2.3 Token Recognition) ---------------------------------

  datatype Mode = Plain | Single | Double

  predicate Blank(c: char) { c == ' ' || c == '\t' }

  /** Unquoted characters that end a command or ask the shell to do something. */
  predicate Acts(c: char) { c in "|&;<>()$`*?[]#~!{}\n" }

  function Grown(word: Option<string>, c: char): Option<string> { Some(Begun(word).value + [c]) }

  function Begun(word: Option<string>): (r: Option<string>)
    ensures r.Some?
  {
    if word.None? then Some("") else word
  }

  function Finished(word: Option<string>): seq<string> { if word.None? then [] else [word.value] }

  /** The words of `s` after quote removal; None when it holds an unquoted acting character, an
      expansion, a NUL, or a quotation that never closes. */
  function Words(s: string, mode: Mode, word: Option<string>): Option<seq<string>>
    decreases |s|
  {
    if s == "" then if mode == Plain then Some(Finished(word)) else None
    else
      var c := s[0];
      if c == '\0' then None
      else if mode == Single then
        if c == '\'' then Words(s[1..], Plain, word) else Words(s[1..], Single, Grown(word, c))
      else if mode == Double then
        if c == '"' then Words(s[1..], Plain, word)
        else if c == '$' || c == '`' then None
        else if c == '\\' && |s| > 1 && s[1] == '\n' then Words(s[2..], Double, word)
        else if c == '\\' && |s| > 1 && s[1] in "$`\"\\" then Words(s[2..], Double, Grown(word, s[1]))
        else Words(s[1..], Double, Grown(word, c))
      else if c == '\'' then Words(s[1..], Single, Begun(word))
      else if c == '"' then Words(s[1..], Double, Begun(word))
      else if c == '\\' then
        if |s| == 1 || s[1] == '\0' then None
        else if s[1] == '\n' then Words(s[2..], Plain, word)
        else Words(s[2..], Plain, Grown(word, s[1]))
      else if Blank(c) then
        match Words(s[1..], Plain, None)
        case None => None
        case Some(rest) => Some(Finished(word) + rest)
      else if Acts(c) then None
      else Words(s[1..], Plain, Grown(word, c))
  }

  function Tokenize(s: string): Option<seq<string>> { Words(s, Plain, None) }

  // ---- Quoting is undone ---------------------------------------------------------------------------

  /** Each quote replaced by a splice. */
  function Spliced(text: string): string {
    if text == "" then "" else (if text[0] == '\'' then SPLICE else [text[0]]) + Spliced(text[1..])
  }

  lemma {:induction false} JoinSplit(text: string)
    ensures Join(Split(text, '\''), SPLICE) == Spliced(text)
  {
    if text != "" {
      JoinSplit(text[1..]);
      var rest := Split(text[1..], '\'');
      if text[0] == '\'' {
        assert ([""] + rest)[1..] == rest;
      } else {
        assert ([[text[0]] + rest[0]] + rest[1..])[1..] == rest[1..];
      }
    }
  }

  /** Inside single quotes the spliced text is read back literally, to the closing quote. */
  lemma {:induction false} SplicedRead(text: string, rest: string, word: string)
    requires '\0' !in text
    ensures Words(Spliced(text) + "'" + rest, Single, Some(word)) == Words(rest, Plain, Some(word + text))
    decreases text
  {
    var s := Spliced(text) + "'" + rest;
    if text == "" {
      assert s[1..] == rest && word + text == word;
    } else {
      var more := Spliced(text[1..]) + "'" + rest;
      SplicedRead(text[1..], rest, word + [text[0]]);
      assert word + [text[0]] + text[1..] == word + text;
      if text[0] == '\'' {
        assert s == SPLICE + more;
        SpliceRead(more, word);
      } else {
        assert s[0] == text[0] && s[1..] == more;
      }
    }
  }

  lemma SpliceRead(more: string, word: string)
    ensures Words(SPLICE + more, Single, Some(word)) == Words(more, Single, Some(word + "'"))
  {
    var s := SPLICE + more;
    assert s[0] == '\'' && s[1..][0] == '\\' && s[1..][1] == '\'' && s[3] == '\'';
    var s1 := s[1..];
    assert s1[2..] == s[3..];
    assert Words(s, Single, Some(word)) == Words(s1, Plain, Some(word));
    assert Words(s1, Plain, Some(word)) == Words(s[3..], Plain, Some(word + "'"));
    assert s[3..][1..] == more;
  }

  lemma InertStep(s: string, word: Option<string>)
    requires s != "" && InertChar(s[0])
    ensures Words(s, Plain, word) == Words(s[1..], Plain, Grown(word, s[0]))
  {
    hide InertChar, Acts, Blank;
    InertIsPlain(s[0]);
  }

  lemma InertIsPlain(c: char)
    requires InertChar(c)
    ensures !Acts(c) && !Blank(c) && c != '\0' && c != '\'' && c != '"' && c != '\\'
  {
  }

  lemma {:induction false} InertRead(text: string, rest: string, word: Option<string>)
    requires forall c :: c in text ==> InertChar(c)
    requires text != "" || word.Some?
    ensures Words(text + rest, Plain, word) == Words(rest, Plain, Some(Begun(word).value + text))
    decreases text
  {
    hide Words, InertChar;
    if text == "" {
      assert text + rest == rest && word.value + text == word.value;
    } else {
      assert text[0] in text && forall c :: c in text[1..] ==> c in text;
      assert (text + rest)[1..] == text[1..] + rest;
      InertStep(text + rest, word);
      InertRead(text[1..], rest, Grown(word, text[0]));
      assert Begun(word).value + [text[0]] + text[1..] == Begun(word).value + text;
    }
  }

  /** A quoted argument is one word, and the shell's cursor stands right behind it. */
  lemma QuotedRead(text: string, rest: string)
    requires '\0' !in text
    ensures Words(QuoteShellArg(text) + rest, Plain, None) == Words(rest, Plain, Some(text))
  {
    if InertWord(text) && text[0] != '-' {
      InertRead(text, rest, None);
      assert "" + text == text;
    } else {
      JoinSplit(text);
      var s := "'" + Spliced(text) + "'" + rest;
      assert QuoteShellArg(text) + rest == s && s[1..] == Spliced(text) + "'" + rest;
      SplicedRead(text, rest, "");
      assert "" + text == text;
    }
  }

  /** Main result: a command line built from quoted arguments reads back as exactly those arguments. */
  lemma {:induction false} CommandLineRead(args: seq<string>)
    requires forall a :: a in args ==> '\0' !in a
    ensures Tokenize(CommandLine(args)) == Some(args)
  {
    if args != [] {
      assert args[0] in args && forall a :: a in args[1..] ==> a in args;
      var quoted := seq(|args|, i requires 0 <= i < |args| => QuoteShellArg(args[i]));
      if |args| == 1 {
        QuotedRead(args[0], "");
        assert QuoteShellArg(args[0]) + "" == CommandLine(args) && [args[0]] == args;
      } else {
        var rest := CommandLine(args[1..]);
        assert quoted[1..] == seq(|args| - 1, i requires 0 <= i < |args| - 1 => QuoteShellArg(args[1..][i]));
        assert CommandLine(args) == QuoteShellArg(args[0]) + (" " + rest);
        QuotedRead(args[0], " " + rest);
        assert (" " + rest)[1..] == rest && [args[0]] + args[1..] == args;
        CommandLineRead(args[1..]);
      }
    }
  }

  lemma ArgumentRead(text: string)
    requires '\0' !in text
    ensures Tokenize(QuoteShellArg(text)) == Some([text])
  {
    QuotedRead(text, "");
    assert QuoteShellArg(text) + "" == QuoteShellArg(text);
  }

  lemma {:induction false} SplicedLength(text: string)
    ensures |Spliced(text)| >= |text|
  {
    if text != "" { SplicedLength(text[1..]); }
  }

  /** An argument is left bare exactly when it is not empty, does not start with a hyphen, and has only letters,
      digits and the inert signs. */
  lemma BareExactly(text: string)
    ensures QuoteShellArg(text) == text
      <==> && text != "" && text[0] != '-'
           && forall c :: c in text ==> 'A' <= c <= 'Z' || 'a' <= c <= 'z' || '0' <= c <= '9' || c in "@%+=:,./_-"
  {
    JoinSplit(text);
    SplicedLength(text);
  }
}
