/** How ParseOptions echoes a command line (src/lib/parse-options.cc), and a reader of the quoting
    rules of section 2.2 of the POSIX.1-2017 Shell Command Language that undoes it. */
module ShellQuote {
  import opened Wrappers

  /** Command-line arguments hold no NUL. */
  type CString = s: string | '\0' !in s

  const OK_CHARS: string := "[]~#^_-+=:.,/"

  predicate IsAlnum(c: char) {
    'a' <= c <= 'z' || 'A' <= c <= 'Z' || '0' <= c <= '9'
  }

  /** Characters that are printed as they are. */
  predicate Plain(c: char) {
    IsAlnum(c) || c in OK_CHARS
  }

  predicate NeedsQuotes(str: string) {
    str == "" || exists i :: 0 <= i < |str| && !Plain(str[i])
  }

  /** A word of letters, digits and the punctuation listed here. */
  predicate BareWord(str: string) {
    str != "" && forall i :: 0 <= i < |str| ==>
      'a' <= str[i] <= 'z' || 'A' <= str[i] <= 'Z' || '0' <= str[i] <= '9' || str[i] in "[]~#^_-+=:.,/"
  }

  method MustBeQuoted(str: CString) returns (must: bool)
    ensures must <==> NeedsQuotes(str)
    ensures must <==> !BareWord(str)
  {
    if |str| == 0 {
      return true;
    }
    for c := 0 to |str|
      invariant forall i :: 0 <= i < c ==> Plain(str[i])
    {
      if !IsAlnum(str[c]) {
        var d := 0;
        while d < |OK_CHARS| && str[c] != OK_CHARS[d]
          invariant d <= |OK_CHARS| && forall i :: 0 <= i < d ==> str[c] != OK_CHARS[i]
        {
          d := d + 1;
        }
        if d == |OK_CHARS| {
          assert !Plain(str[c]);
          return true;
        }
      }
    }
    return false;
  }

  predicate DoubleQuotable(str: string) {
    '\'' in str && '\"' !in str && '`' !in str && '$' !in str && '\\' !in str
  }

  /** The characters with every single quote closed, escaped and opened again. */
  function Escaped(str: string): string {
    if str == "" then ""
    else Escaped(str[..|str| - 1]) + if str[|str| - 1] == '\'' then "'\\''" else [str[|str| - 1]]
  }

  function Quoted(str: string): string {
    if DoubleQuotable(str) then "\"" + str + "\"" else "'" + Escaped(str) + "'"
  }

  method QuoteAndEscape(str: CString) returns (ans: string)
    ensures ans == Quoted(str)
  {
    var quoteChar, escapeStr;
    if '\'' in str && !('\"' in str || '`' in str || '$' in str || '\\' in str) {
      quoteChar := '\"';
      escapeStr := "\\\"";
    } else {
      quoteChar := '\'';
      escapeStr := "'\\''";
    }
    ans := [quoteChar];
    for c := 0 to |str|
      invariant ans == [quoteChar] + if quoteChar == '\"' then str[..c] else Escaped(str[..c])
    {
      assert str[..c + 1][..c] == str[..c];
      if str[c] == quoteChar {
        ans := ans + escapeStr;
      } else {
        ans := ans + [str[c]];
      }
    }
    assert str[..|str|] == str;
    ans := ans + [quoteChar];
  }

  function Escape(str: string): string {
    if NeedsQuotes(str) then Quoted(str) else str
  }

  method EscapeArgument(str: CString) returns (ans: string)
    ensures ans == Escape(str)
  {
    var must := MustBeQuoted(str);
    if !must {
      ans := str;
    } else {
      ans := QuoteAndEscape(str);
    }
  }

  function Echo(args: seq<string>): string {
    if args == [] then "" else Echo(args[..|args| - 1]) + Escape(args[|args| - 1]) + " "
  }

  /** The line printed before the program starts. */
  method EchoArguments(argv: seq<CString>) returns (line: string)
    ensures line == Echo(argv) + "\n"
  {
    line := "";
    for j := 0 to |argv|
      invariant line == Echo(argv[..j])
    {
      var escaped := EscapeArgument(argv[j]);
      line := line + escaped + " ";
      assert argv[..j + 1][..j] == argv[..j];
    }
    assert argv[..|argv|] == argv;
    line := line + "\n";
  }

  // ---------- The shell reads it back ----------

  datatype Mode = Between | Word | Single | Double

  predicate IsBlank(c: char) { c == ' ' || c == '\t' }

  /** What section 2.2 says must be quoted wherever it stands, but for quotes, backslash, blanks and
      newline, and the two characters of patterns that match any name. */
  predicate Special(c: char) {
    c == '|' || c == '&' || c == ';' || c == '<' || c == '>' || c == '(' || c == ')' || c == '$' || c == '`'
    || c == '*' || c == '?'
  }

  /** Splits a line into words by the quoting rules. An expansion, an operator or a quote left open
      is not a simple list of words. A strict reader also minds where a character stands: a `#` that
      starts a word starts a comment, a `~` there is expanded, and a `[` opens a pattern. */
  function Read(strict: bool, line: string, mode: Mode, word: string, words: seq<string>): Option<seq<string>>
    decreases |line|
  {
    if line == "" then
      match mode
      case Between => Some(words)
      case Word => Some(words + [word])
      case _ => None
    else
      var c, rest := line[0], line[1..];
      match mode
      case Single =>
        if c == '\'' then Read(strict, rest, Word, word, words) else Read(strict, rest, Single, word + [c], words)
      case Double =>
        if c == '\"' then Read(strict, rest, Word, word, words)
        else if c == '$' || c == '`' then None
        else if c != '\\' || rest == "" then Read(strict, rest, Double, word + [c], words)
        else if rest[0] == '\n' then Read(strict, rest[1..], Double, word, words)
        else if rest[0] in "$`\"\\" then Read(strict, rest[1..], Double, word + [rest[0]], words)
        else Read(strict, rest, Double, word + [c], words)
      case _ =>
        if c == '\n' then Some(if mode.Word? then words + [word] else words)
        else if IsBlank(c) then Read(strict, rest, Between, "", if mode.Word? then words + [word] else words)
        else if c == '\'' then Read(strict, rest, Single, word, words)
        else if c == '\"' then Read(strict, rest, Double, word, words)
        else if c == '\\' then
          if rest == "" then None
          else if rest[0] == '\n' then Read(strict, rest[1..], mode, word, words)
          else Read(strict, rest[1..], Word, word + [rest[0]], words)
        else if Special(c) then None
        else if strict && mode.Between? && c == '#' then Some(words)
        else if strict && (c == '[' || (mode.Between? && c == '~')) then None
        else Read(strict, rest, Word, word + [c], words)
  }

  function ReadLine(line: string): Option<seq<string>> { Read(false, line, Between, "", []) }

  function ReadLineStrictly(line: string): Option<seq<string>> { Read(true, line, Between, "", []) }

  /** The first character of a line, mode by mode. */
  lemma Steps(strict: bool, c: char, rest: string, word: string, words: seq<string>)
    ensures c != '\'' ==> Read(strict, [c] + rest, Single, word, words) == Read(strict, rest, Single, word + [c], words)
    ensures Read(strict, "'" + rest, Single, word, words) == Read(strict, rest, Word, word, words)
    ensures Read(strict, "\"" + rest, Double, word, words) == Read(strict, rest, Word, word, words)
    ensures c != '\"' && c != '`' && c != '$' && c != '\\' ==>
              Read(strict, [c] + rest, Double, word, words) == Read(strict, rest, Double, word + [c], words)
    ensures Plain(c) && (strict ==> c != '[') ==>
              Read(strict, [c] + rest, Word, word, words) == Read(strict, rest, Word, word + [c], words)
    ensures Read(strict, "'" + rest, Word, word, words) == Read(strict, rest, Single, word, words)
    ensures Read(strict, " " + rest, Word, word, words) == Read(strict, rest, Between, "", words + [word])
  {
    assert ([c] + rest)[1..] == rest && ("'" + rest)[1..] == rest && ("\"" + rest)[1..] == rest
           && (" " + rest)[1..] == rest;
  }

  lemma FirstSteps(strict: bool, c: char, rest: string, words: seq<string>)
    ensures Plain(c) && (strict ==> c != '[' && c != '#' && c != '~') ==>
              Read(strict, [c] + rest, Between, "", words) == Read(strict, rest, Word, [c], words)
    ensures Read(strict, "'" + rest, Between, "", words) == Read(strict, rest, Single, "", words)
    ensures Read(strict, "\"" + rest, Between, "", words) == Read(strict, rest, Double, "", words)
  {
    assert ([c] + rest)[1..] == rest && ("'" + rest)[1..] == rest && ("\"" + rest)[1..] == rest;
    assert "" + [c] == [c];
  }

  lemma EscapedQuoteStep(strict: bool, rest: string, word: string, words: seq<string>)
    ensures Read(strict, "\\'" + rest, Word, word, words) == Read(strict, rest, Word, word + ['\''], words)
  {
    assert ("\\'" + rest)[1..] == "'" + rest && ("'" + rest)[1..] == rest;
  }

  lemma {:induction false} ReadPlain(strict: bool, str: string, rest: string, word: string, words: seq<string>)
    requires forall i :: 0 <= i < |str| ==> Plain(str[i]) && (strict ==> str[i] != '[')
    ensures Read(strict, str + rest, Word, word, words) == Read(strict, rest, Word, word + str, words)
    decreases |str|
  {
    hide Read, Plain;
    if str == "" {
      assert str + rest == rest && word + str == word;
    } else {
      assert str + rest == [str[0]] + (str[1..] + rest);
      assert word + str == word + [str[0]] + str[1..];
      Steps(strict, str[0], str[1..] + rest, word, words);
      ReadPlain(strict, str[1..], rest, word + [str[0]], words);
    }
  }

  lemma {:induction false} ReadDouble(strict: bool, str: string, rest: string, word: string, words: seq<string>)
    requires '\"' !in str && '`' !in str && '$' !in str && '\\' !in str
    ensures Read(strict, str + ("\"" + rest), Double, word, words) == Read(strict, rest, Word, word + str, words)
    decreases |str|
  {
    hide Read;
    if str == "" {
      assert str + ("\"" + rest) == "\"" + rest && word + str == word;
      Steps(strict, ' ', rest, word, words);
    } else {
      assert str + ("\"" + rest) == [str[0]] + (str[1..] + ("\"" + rest));
      assert word + str == word + [str[0]] + str[1..];
      Steps(strict, str[0], str[1..] + ("\"" + rest), word, words);
      ReadDouble(strict, str[1..], rest, word + [str[0]], words);
    }
  }

  lemma {:induction false} EscapedFirst(str: string)
    requires str != ""
    ensures Escaped(str) == (if str[0] == '\'' then "'\\''" else [str[0]]) + Escaped(str[1..])
  {
    var last := |str| - 1;
    if last > 0 {
      EscapedFirst(str[..last]);
      assert str[..last][1..] == str[1..][..last - 1];
    } else {
      assert str[..0] == "" && str[1..] == "";
    }
  }

  lemma {:induction false} ReadSingle(strict: bool, str: string, rest: string, word: string, words: seq<string>)
    ensures Read(strict, Escaped(str) + ("'" + rest), Single, word, words)
            == Read(strict, rest, Word, word + str, words)
    decreases |str|
  {
    hide Read;
    if str == "" {
      assert Escaped(str) + ("'" + rest) == "'" + rest && word + str == word;
      Steps(strict, ' ', rest, word, words);
    } else {
      EscapedFirst(str);
      hide Escaped;
      var tail := Escaped(str[1..]) + ("'" + rest);
      assert word + str == word + [str[0]] + str[1..];
      ReadSingle(strict, str[1..], rest, word + [str[0]], words);
      if str[0] == '\'' {
        assert Escaped(str) + ("'" + rest) == "'" + ("\\'" + ("'" + tail));
        Steps(strict, ' ', "\\'" + ("'" + tail), word, words);
        EscapedQuoteStep(strict, "'" + tail, word, words);
        Steps(strict, ' ', tail, word + [str[0]], words);
      } else {
        assert Escaped(str) + ("'" + rest) == [str[0]] + tail;
        Steps(strict, str[0], tail, word, words);
      }
    }
  }

  /** Words printed bare that mean something else where they stand. */
  predicate Misread(str: string) {
    BareWord(str) && (str[0] == '#' || str[0] == '~' || '[' in str)
  }

  lemma ReadBare(strict: bool, str: string, tail: string, words: seq<string>)
    requires !NeedsQuotes(str) && (strict ==> !Misread(str))
    ensures Read(strict, str + tail, Between, "", words) == Read(strict, tail, Word, str, words)
  {
    BareIsPlain(str);
    hide Read, Plain;
    assert str + tail == [str[0]] + (str[1..] + tail) && [str[0]] + str[1..] == str;
    FirstSteps(strict, str[0], str[1..] + tail, words);
    ReadPlain(strict, str[1..], tail, [str[0]], words);
  }

  lemma ReadQuoted(strict: bool, str: string, tail: string, words: seq<string>)
    ensures Read(strict, Quoted(str) + tail, Between, "", words) == Read(strict, tail, Word, str, words)
  {
    hide Read, Escaped;
    assert "" + str == str;
    if DoubleQuotable(str) {
      assert Quoted(str) + tail == "\"" + (str + ("\"" + tail));
      FirstSteps(strict, ' ', str + ("\"" + tail), words);
      ReadDouble(strict, str, tail, "", words);
    } else {
      assert Quoted(str) + tail == "'" + (Escaped(str) + ("'" + tail));
      FirstSteps(strict, ' ', Escaped(str) + ("'" + tail), words);
      ReadSingle(strict, str, tail, "", words);
    }
  }

  /** One argument, echoed, is one word to the shell: the argument itself. */
  lemma ReadEscaped(strict: bool, str: string, rest: string, words: seq<string>)
    requires strict ==> !Misread(str)
    ensures Read(strict, Escape(str) + (" " + rest), Between, "", words)
            == Read(strict, rest, Between, "", words + [str])
  {
    hide Read, Quoted, NeedsQuotes, Misread;
    Steps(strict, ' ', rest, str, words);
    if !NeedsQuotes(str) {
      ReadBare(strict, str, " " + rest, words);
    } else {
      ReadQuoted(strict, str, " " + rest, words);
    }
  }

  lemma {:induction false} ReadEcho(strict: bool, args: seq<string>, rest: string)
    requires strict ==> forall i :: 0 <= i < |args| ==> !Misread(args[i])
    ensures Read(strict, Echo(args) + rest, Between, "", []) == Read(strict, rest, Between, "", args)
    decreases |args|
  {
    hide Read, Escape;
    if args == [] {
      assert Echo(args) + rest == rest;
    } else {
      var init, last := args[..|args| - 1], args[|args| - 1];
      assert Echo(args) + rest == Echo(init) + (Escape(last) + (" " + rest));
      ReadEcho(strict, init, Escape(last) + (" " + rest));
      ReadEscaped(strict, last, rest, init);
      assert init + [last] == args;
    }
  }

  /** Pasted into the shell, the echoed line gives back exactly the arguments. */
  lemma EchoRoundTrips(args: seq<string>)
    ensures ReadLine(Echo(args) + "\n") == Some(args)
  {
    ReadEcho(false, args, "\n");
  }

  /** To a reader that minds where characters stand, it does so exactly when no argument that is printed
      bare starts with `#` or `~` or holds a `[`. */
  lemma EchoRoundTripsStrictly(args: seq<string>)
    ensures ReadLineStrictly(Echo(args) + "\n") == Some(args) <==> forall i :: 0 <= i < |args| ==> !Misread(args[i])
  {
    if i :| 0 <= i < |args| && Misread(args[i]) && forall j :: 0 <= j < i ==> !Misread(args[j]) {
      StopsAtMisread(args, i);
    } else {
      NoneMisread(args, |args|);
      ReadEcho(true, args, "\n");
    }
  }

  lemma {:induction false} NoneMisread(args: seq<string>, n: nat)
    requires n <= |args|
    requires !exists i :: 0 <= i < |args| && Misread(args[i]) && forall j :: 0 <= j < i ==> !Misread(args[j])
    ensures forall i :: 0 <= i < n ==> !Misread(args[i])
  {
    if n > 0 { NoneMisread(args, n - 1); }
  }

  lemma StopsAtMisread(args: seq<string>, i: nat)
    requires i < |args| && Misread(args[i]) && forall j :: 0 <= j < i ==> !Misread(args[j])
    ensures ReadLineStrictly(Echo(args) + "\n") != Some(args)
  {
    hide Read;
    var rest := EchoSplits(args, i, "\n");
    ReadEcho(true, args[..i], Escape(args[i]) + (" " + rest));
    BareIsPlain(args[i]);
    ReadMisread(args[i], " " + rest, args[..i]);
    assert |args[..i]| < |args|;
  }

  lemma {:induction false} EchoSplits(args: seq<string>, i: nat, tail: string) returns (rest: string)
    requires i < |args|
    ensures Echo(args) + tail == Echo(args[..i]) + (Escape(args[i]) + (" " + rest))
    decreases |args|
  {
    hide Escape;
    var init, last := args[..|args| - 1], args[|args| - 1];
    if i == |init| {
      rest := tail;
    } else {
      rest := EchoSplits(init, i, Escape(last) + (" " + tail));
      assert init[..i] == args[..i];
      Grouped(Echo(init), Escape(last), tail);
    }
  }

  lemma Grouped(init: string, last: string, tail: string)
    ensures init + last + " " + tail == init + (last + (" " + tail))
  {
  }

  lemma BareIsPlain(str: string)
    ensures BareWord(str) <==> !NeedsQuotes(str)
  {
  }

  /** The reader stops at such a word, or takes the rest of the line for a comment. */
  lemma ReadMisread(str: string, rest: string, words: seq<string>)
    requires Misread(str)
    ensures Read(true, str + rest, Between, "", words) in {None, Some(words)}
  {
    hide Read;
    BareIsPlain(str);
    assert str + rest == [str[0]] + (str[1..] + rest);
    StrictSteps(str[0], str[1..] + rest, "", words);
    if str[0] != '#' && str[0] != '~' && str[0] != '[' {
      FirstSteps(true, str[0], str[1..] + rest, words);
      ReadPattern(str[1..], rest, [str[0]], words);
    }
  }

  lemma StrictSteps(c: char, rest: string, word: string, words: seq<string>)
    ensures c == '#' ==> Read(true, [c] + rest, Between, "", words) == Some(words)
    ensures c == '~' || c == '[' ==> Read(true, [c] + rest, Between, "", words) == None
    ensures c == '[' ==> Read(true, [c] + rest, Word, word, words) == None
  {
  }

  lemma {:induction false} ReadPattern(str: string, rest: string, word: string, words: seq<string>)
    requires (forall i :: 0 <= i < |str| ==> Plain(str[i])) && '[' in str
    ensures Read(true, str + rest, Word, word, words) == None
    decreases |str|
  {
    hide Read, Plain;
    assert str + rest == [str[0]] + (str[1..] + rest);
    StrictSteps(str[0], str[1..] + rest, word, words);
    if str[0] != '[' {
      Steps(true, str[0], str[1..] + rest, word, words);
      ReadPattern(str[1..], rest, word + [str[0]], words);
    }
  }

  /** So no two command lines are echoed alike. */
  lemma EchoIsInjective(args: seq<string>, others: seq<string>)
    requires Echo(args) == Echo(others)
    ensures args == others
  {
    EchoRoundTrips(args);
    EchoRoundTrips(others);
  }

  /** Quotes are left off exactly around non-empty words of letters, digits and `[]~#^_-+=:.,/`. */
  lemma UnquotedExactlyWhenPlain(str: string)
    ensures Escape(str) == str <==>
              str != "" && forall i :: 0 <= i < |str| ==>
                'a' <= str[i] <= 'z' || 'A' <= str[i] <= 'Z' || '0' <= str[i] <= '9' || str[i] in "[]~#^_-+=:.,/"
  {
    BareIsPlain(str);
    if NeedsQuotes(str) {
      if !DoubleQuotable(str) {
        EscapedGrows(str);
      }
    }
  }

  lemma {:induction false} EscapedGrows(str: string)
    ensures |Escaped(str)| >= |str|
  {
    if str != "" {
      EscapedGrows(str[..|str| - 1]);
    }
  }
}
