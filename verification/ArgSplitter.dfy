/** How exec-stream splits a command line into arguments and lays them out for execv
    (3rdparty/exec-stream/posix/exec-stream-impl.cpp, split_args). */
module ArgSplitter {

  /** Program names and command lines hold no NUL. */
  type CString = s: string | '\0' !in s

  predicate IsSpace(c: char) { c == ' ' || c == '\t' || c == '\r' || c == '\n' || c == '\U{0B}' }

  // ---------- What the arguments are ----------

  function Trimmed(s: string): (t: string)
    ensures |t| <= |s| && (t != [] ==> !IsSpace(t[0]))
  {
    if s != [] && IsSpace(s[0]) then Trimmed(s[1..]) else s
  }

  /** A word up to the next white space, and what follows it. */
  function Word(s: string): (r: (string, string))
    ensures |r.0| + |r.1| == |s|
  {
    if s == [] || IsSpace(s[0]) then ("", s) else
      var (w, rest) := Word(s[1..]);
      ([s[0]] + w, rest)
  }

  /** A text up to the closing quote, or to the end if there is none, and what follows. A backslash
      keeps a quote from closing the text, and is dropped. */
  function Body(s: string): (r: (string, string))
    ensures |r.0| + |r.1| <= |s|
  {
    if s == [] then ("", "")
    else if s[0] == '"' then ("", s[1..])
    else if |s| > 1 && s[0] == '\\' && s[1] == '"' then
      var (b, rest) := Body(s[2..]);
      ("\"" + b, rest)
    else
      var (b, rest) := Body(s[1..]);
      ([s[0]] + b, rest)
  }

  function Argument(s: string): (r: (string, string))
    requires s != [] && !IsSpace(s[0])
    ensures |r.1| < |s|
  {
    if s[0] == '"' then Body(s[1..]) else Word(s)
  }

  function Arguments(s: string): seq<string>
    decreases |s|
  {
    var t := Trimmed(s);
    if t == [] then [] else [Argument(t).0] + Arguments(Argument(t).1)
  }

  lemma BodyStep(s: string)
    requires s != [] && s[0] != '"' && !(|s| > 1 && s[0] == '\\' && s[1] == '"')
    ensures Body(s).0 == [s[0]] + Body(s[1..]).0 && Body(s).1 == Body(s[1..]).1
  {
  }

  lemma BodyEnds(s: string)
    requires s == [] || s[0] == '"'
    ensures if s == [] then Body(s).0 == s && Body(s).1 == "" else Body(s).0 == s[..0] && Body(s).1 == s[1..]
  {
  }

  lemma BodyKeeps(s: string)
    requires |s| > 1 && s[0] == '\\' && s[1] == '"'
    ensures Body(s).0 == "\"" + Body(s[2..]).0 && Body(s).1 == Body(s[2..]).1
  {
  }

  // ---------- Quoting undone ----------

  function Escaped(s: string): string {
    if s == [] then [] else (if s[0] == '"' then "\\\"" else [s[0]]) + Escaped(s[1..])
  }

  function Quoted(s: string): string { "\"" + Escaped(s) + "\"" }

  function CommandLine(args: seq<string>): string {
    if args == [] then [] else Quoted(args[0]) + " " + CommandLine(args[1..])
  }

  predicate EndsInBackslash(s: string) { s != [] && s[|s| - 1] == '\\' }

  /** A quoted text is read back, unless its last character keeps the quote from closing it. */
  lemma {:induction false} BodyOfEscaped(s: string, rest: string)
    ensures !EndsInBackslash(s) ==> Body(Escaped(s) + "\"" + rest) == (s, rest)
    ensures EndsInBackslash(s) ==> var b := Body(Escaped(s) + "\"" + rest).0; |b| >= |s| && b[|s| - 1] == '"'
  {
    hide Body;
    var line := Escaped(s) + "\"" + rest;
    if s == [] {
      BodyEnds(line);
      assert line[1..] == rest;
    } else {
      BodyOfEscaped(s[1..], rest);
      var tail := Escaped(s[1..]) + "\"" + rest;
      assert s == [s[0]] + s[1..];
      if s[0] == '"' {
        assert line == "\\\"" + tail && line[2..] == tail;
        BodyKeeps(line);
      } else {
        assert line == [s[0]] + tail && line[1..] == tail;
        EscapedStart(s[1..]);
        if s[0] == '\\' && tail[0] == '"' {
          BodyKeeps(line);
          assert s[1..] == [];
        } else {
          BodyStep(line);
        }
      }
    }
  }

  lemma EscapedStart(s: string)
    ensures s != [] ==> Escaped(s) != [] && Escaped(s)[0] != '"'
  {
  }

  lemma FirstArgument(args: seq<string>)
    requires args != []
    ensures var line := CommandLine(args);
            && line != [] && line[0] == '"' && Trimmed(line) == line
            && line[1..] == Escaped(args[0]) + "\"" + (" " + CommandLine(args[1..]))
  {
    var body, tail := Escaped(args[0]), CommandLine(args[1..]);
    hide Escaped, Trimmed;
    assert CommandLine(args) == "\"" + body + "\"" + " " + tail;
    Regroup("\"", body, tail);
    QuoteStarts("\"" + (body + "\"" + (" " + tail)));
  }

  lemma Regroup(quote: string, body: string, tail: string)
    ensures quote + body + "\"" + " " + tail == quote + (body + "\"" + (" " + tail))
  {
  }

  lemma QuoteStarts(s: string)
    requires s != [] && s[0] == '"'
    ensures Trimmed(s) == s
  {
  }

  lemma SpaceFirst(s: string)
    ensures Arguments(" " + s) == Arguments(s)
  {
    assert (" " + s)[1..] == s;
  }

  /** A quoted command line is split into its arguments exactly when none of them ends in a backslash. */
  lemma {:induction false} QuotingRoundTrips(args: seq<string>)
    ensures Arguments(CommandLine(args)) == args <==> forall i :: 0 <= i < |args| ==> !EndsInBackslash(args[i])
  {
    if args != [] {
      var tail := CommandLine(args[1..]);
      FirstArgument(args);
      BodyOfEscaped(args[0], " " + tail);
      if !EndsInBackslash(args[0]) {
        SpaceFirst(tail);
        QuotingRoundTrips(args[1..]);
        assert args == [args[0]] + args[1..];
        assert (forall i :: 0 <= i < |args| ==> !EndsInBackslash(args[i]))
               <==> forall i :: 0 <= i < |args[1..]| ==> !EndsInBackslash(args[1..][i]);
      }
    }
  }

  // ---------- Words of any kind, with any white space ----------

  /** The five characters that separate arguments. */
  predicate White(gap: string) {
    forall i :: 0 <= i < |gap| ==>
      gap[i] == ' ' || gap[i] == '\t' || gap[i] == '\r' || gap[i] == '\n' || gap[i] == '\U{0B}'
  }

  /** A word without any of them that does not start with a quote. */
  predicate BareWord(s: string) {
    s != [] && s[0] != '"' && forall i :: 0 <= i < |s| ==>
      s[i] != ' ' && s[i] != '\t' && s[i] != '\r' && s[i] != '\n' && s[i] != '\U{0B}'
  }

  /** An argument as it is typed, with the white space behind it. */
  datatype Typed = Bare(text: string, gap: string) | InQuotes(text: string, gap: string)

  function Spelled(t: Typed): string {
    if t.Bare? then t.text else Quoted(t.text)
  }

  function Line(items: seq<Typed>): string {
    if items == [] then [] else Spelled(items[0]) + (items[0].gap + Line(items[1..]))
  }

  function Texts(items: seq<Typed>): seq<string> {
    if items == [] then [] else [items[0].text] + Texts(items[1..])
  }

  /** Bare words are followed by white space unless they come last. */
  predicate WellTyped(items: seq<Typed>) {
    forall i :: 0 <= i < |items| ==>
      && White(items[i].gap)
      && (items[i].Bare? ==> BareWord(items[i].text) && (items[i].gap != [] || i == |items| - 1))
      && (items[i].InQuotes? ==> !EndsInBackslash(items[i].text))
  }

  lemma {:induction false} TrimGap(gap: string, s: string)
    requires White(gap)
    ensures Trimmed(gap + s) == Trimmed(s)
  {
    if gap == [] {
      assert gap + s == s;
    } else {
      TrimGap(gap[1..], s);
      assert (gap + s)[1..] == gap[1..] + s;
    }
  }

  lemma {:induction false} WordEnds(s: string, rest: string)
    requires forall i :: 0 <= i < |s| ==> !IsSpace(s[i])
    requires rest == [] || IsSpace(rest[0])
    ensures Word(s + rest) == (s, rest)
  {
    if s == [] {
      assert s + rest == rest;
    } else {
      WordEnds(s[1..], rest);
      assert (s + rest)[1..] == s[1..] + rest && (s + rest)[0] == s[0];
      assert [s[0]] + s[1..] == s;
    }
  }

  lemma FirstTyped(item: Typed, rest: string)
    requires White(item.gap)
    requires item.Bare? ==> BareWord(item.text) && (item.gap != [] || rest == [])
    requires item.InQuotes? ==> !EndsInBackslash(item.text)
    ensures var line := Spelled(item) + (item.gap + rest);
            line != [] && Trimmed(line) == line && Argument(line) == (item.text, item.gap + rest)
  {
    hide Body, Word, Escaped;
    var tail := item.gap + rest;
    if item.Bare? {
      assert tail == [] || IsSpace(tail[0]);
      WordEnds(item.text, tail);
      assert (item.text + tail)[0] == item.text[0];
    } else {
      BodyOfEscaped(item.text, tail);
      assert (Quoted(item.text) + tail)[1..] == Escaped(item.text) + "\"" + tail;
    }
  }

  lemma LastGap(items: seq<Typed>)
    requires WellTyped(items) && items != []
    ensures WellTyped(items[1..]) && White(items[0].gap)
    ensures items[0].Bare? ==> BareWord(items[0].text) && (items[0].gap != [] || Line(items[1..]) == [])
    ensures items[0].InQuotes? ==> !EndsInBackslash(items[0].text)
  {
  }

  /** Bare and quoted arguments, mixed, with any white space before, between and behind them, are split
      into what was typed. */
  lemma {:induction false} TypedLineSplits(lead: string, items: seq<Typed>)
    requires White(lead) && WellTyped(items)
    ensures Arguments(lead + Line(items)) == Texts(items)
    decreases |items|
  {
    hide Trimmed, White, WellTyped, BareWord, Argument, Spelled;
    TrimGap(lead, Line(items));
    if items == [] {
      NothingTyped();
    } else {
      LastGap(items);
      TypedLineSplits(items[0].gap, items[1..]);
      FirstTyped(items[0], Line(items[1..]));
    }
  }

  lemma NothingTyped()
    ensures Trimmed("") == "" && White("")
  {
  }

  /** A word is split back without quotes exactly when it is such a bare word. */
  lemma BareSplitsIff(s: string)
    ensures Arguments(s) == [s] <==> BareWord(s)
  {
    if BareWord(s) {
      TypedLineSplits("", [Bare(s, "")]);
      assert "" + (s + ("" + "")) == s;
    } else if Arguments(s) == [s] {
      var t := Trimmed(s);
      assert ([Argument(t).0] + Arguments(Argument(t).1))[0] == s;
      if t[0] == '"' {
        assert false;
      } else {
        WordHasNoSpace(t);
      }
    }
  }

  lemma {:induction false} WordHasNoSpace(s: string)
    ensures forall i :: 0 <= i < |Word(s).0| ==> !IsSpace(Word(s).0[i])
    ensures Word(s).0 <= s
  {
    if s != [] && !IsSpace(s[0]) {
      WordHasNoSpace(s[1..]);
    }
  }

  // ---------- Layout ----------

  /** The strings one behind the other, each closed by a NUL. */
  function Strings(args: seq<string>): string {
    if args == [] then [] else Strings(args[..|args| - 1]) + args[|args| - 1] + "\0"
  }

  lemma OneMoreString(args: seq<string>, arg: string)
    ensures Strings(args + [arg]) == Strings(args) + arg + "\0"
  {
    assert (args + [arg])[..|args + [arg]| - 1] == args;
  }

  lemma {:induction false} StringsGrow(args: seq<string>, i: nat)
    requires i < |args|
    ensures Strings(args[..i + 1]) == Strings(args[..i]) + args[i] + "\0" && Strings(args[..i + 1]) <= Strings(args)
    decreases |args|
  {
    assert args[..i + 1][..i] == args[..i];
    if i + 1 < |args| {
      StringsGrow(args[..|args| - 1], i);
      assert args[..|args| - 1][..i + 1] == args[..i + 1] && args[..|args| - 1][..i] == args[..i];
    } else {
      assert args[..i + 1] == args;
    }
  }

  // ---------- No NUL appears ----------

  lemma {:induction false} WordFrom(s: string)
    ensures (forall c :: c in Word(s).0 ==> c in s) && forall c :: c in Word(s).1 ==> c in s
  {
    if s != [] && !IsSpace(s[0]) {
      WordFrom(s[1..]);
    }
  }

  lemma {:induction false} BodyFrom(s: string)
    ensures (forall c :: c in Body(s).0 ==> c in s) && forall c :: c in Body(s).1 ==> c in s
    decreases |s|
  {
    if s != [] && s[0] != '"' {
      if |s| > 1 && s[0] == '\\' && s[1] == '"' {
        BodyFrom(s[2..]);
        assert s[1] in s;
      } else {
        BodyFrom(s[1..]);
      }
    }
  }

  lemma {:induction false} TrimmedFrom(s: string)
    ensures forall c :: c in Trimmed(s) ==> c in s
  {
    if s != [] && IsSpace(s[0]) {
      TrimmedFrom(s[1..]);
    }
  }

  lemma {:induction false} ArgumentsFrom(s: string)
    requires '\0' !in s
    ensures forall i :: 0 <= i < |Arguments(s)| ==> '\0' !in Arguments(s)[i]
    decreases |s|
  {
    var t := Trimmed(s);
    TrimmedFrom(s);
    if t != [] {
      if t[0] == '"' {
        BodyFrom(t[1..]);
      } else {
        WordFrom(t);
      }
      ArgumentsFrom(Argument(t).1);
    }
  }

  // ---------- Searching ----------

  method FindFirstNotSpace(s: string, from: nat) returns (i: nat)
    requires from <= |s|
    ensures from <= i <= |s| && s[i..] == Trimmed(s[from..]) && (i < |s| ==> !IsSpace(s[i]))
  {
    i := from;
    while i < |s| && IsSpace(s[i])
      invariant from <= i <= |s| && Trimmed(s[i..]) == Trimmed(s[from..])
      decreases |s| - i
    {
      assert s[i..][1..] == s[i + 1..];
      i := i + 1;
    }
  }

  lemma WordStep(s: string, from: nat, i: nat)
    requires from <= i < |s| && !IsSpace(s[i])
    ensures Word(s[i..]).0 == [s[i]] + Word(s[i + 1..]).0 && Word(s[i..]).1 == Word(s[i + 1..]).1
    ensures s[from..i + 1] == s[from..i] + [s[i]]
  {
    assert s[i..][0] == s[i] && s[i..][1..] == s[i + 1..];
  }

  method FindFirstSpace(s: string, from: nat) returns (i: nat)
    requires from <= |s|
    ensures from <= i <= |s| && Word(s[from..]).0 == s[from..i] && Word(s[from..]).1 == s[i..]
            && (i < |s| ==> IsSpace(s[i]))
  {
    i := from;
    while i < |s| && !IsSpace(s[i])
      invariant from <= i <= |s| && Word(s[from..]).0 == s[from..i] + Word(s[i..]).0
                && Word(s[from..]).1 == Word(s[i..]).1
      decreases |s| - i
    {
      WordStep(s, from, i);
      i := i + 1;
    }
  }

  method FindQuote(s: string, from: nat) returns (i: nat)
    requires from <= |s|
    ensures from <= i <= |s| && (forall k :: from <= k < i ==> s[k] != '"') && (i < |s| ==> s[i] == '"')
  {
    i := from;
    while i < |s| && s[i] != '"'
      invariant from <= i <= |s| && forall k :: from <= k < i ==> s[k] != '"'
      decreases |s| - i
    {
      i := i + 1;
    }
  }

  /** A text up to its first quote. */
  lemma {:induction false} BodyToQuote(s: string, n: nat)
    requires n <= |s| && (forall k :: 0 <= k < n ==> s[k] != '"') && (n < |s| ==> s[n] == '"')
    ensures n == |s| ==> Body(s).0 == s && Body(s).1 == ""
    ensures n < |s| && n > 0 && s[n - 1] == '\\' ==>
              Body(s).0 == s[..n - 1] + "\"" + Body(s[n + 1..]).0 && Body(s).1 == Body(s[n + 1..]).1
    ensures n < |s| && !(n > 0 && s[n - 1] == '\\') ==> Body(s).0 == s[..n] && Body(s).1 == s[n + 1..]
  {
    hide Body;
    if n == 0 {
      BodyEnds(s);
    } else if n == 1 && |s| > 1 && s[0] == '\\' {
      BodyKeeps(s);
      assert s[..0] == "";
    } else {
      var t := s[1..];
      BodyStep(s);
      forall k | 0 <= k < n - 1 ensures t[k] != '"' {
        assert t[k] == s[k + 1];
      }
      assert n < |s| ==> t[n - 1] == s[n];
      BodyToQuote(t, n - 1);
      assert s == [s[0]] + t;
      if n < |s| {
        PrefixOf(s, n);
        if n > 1 {
          PrefixOf(s, n - 1);
          assert t[n - 2] == s[n - 1];
        }
      }
    }
  }

  lemma PrefixOf(s: string, n: nat)
    requires 0 < n <= |s|
    ensures s[..n] == [s[0]] + s[1..][..n - 1] && s[1..][n - 1..] == s[n..]
    ensures n < |s| ==> s[1..][n..] == s[n + 1..]
  {
  }

  // ---------- Splitting ----------

  /** Puts a text behind what was written. */
  method Copy(a: array<char>, at: nat, src: string)
    requires at + |src| <= a.Length
    modifies a
    ensures a[..at + |src|] == old(a[..at]) + src
  {
    var k := 0;
    while k < |src|
      invariant k <= |src| && a[..at + k] == old(a[..at]) + src[..k]
      decreases |src| - k
    {
      a[at + k] := src[k];
      k := k + 1;
      assert a[..at + k] == a[..at + k - 1] + [src[k - 1]];
    }
  }

  /** Copies one argument, and says where the next may begin. */
  method TakeArgument(s: string, argStart: nat, args: array<char>, end0: nat) returns (argStop: nat, end: nat)
    requires argStart < |s| && !IsSpace(s[argStart]) && end0 + (|s| - argStart) <= args.Length
    modifies args
    ensures argStart < argStop <= |s| && end0 <= end <= end0 + (argStop - argStart)
    ensures end == end0 + (argStop - argStart) && argStop < |s| ==> IsSpace(s[argStop])
    ensures Argument(s[argStart..]).1 == s[argStop..] && args[..end] == old(args[..end0]) + Argument(s[argStart..]).0
  {
    if s[argStart] != '"' {
      argStop := FindFirstSpace(s, argStart);
      Copy(args, end0, s[argStart..argStop]);
      end := end0 + (argStop - argStart);
    } else {
      argStop, end := TakeQuoted(s, argStart, args, end0);
      assert s[argStart..][1..] == s[argStart + 1..];
    }
  }

  function BehindQuote(s: string, next: nat): nat { if next == |s| then next else next + 1 }

  lemma BodyAt(s: string, cur: nat, next: nat)
    requires 0 < cur <= next <= |s| && s[cur - 1] == '"'
    requires (forall k :: cur <= k < next ==> s[k] != '"') && (next < |s| ==> s[next] == '"')
    ensures next == |s| || s[next - 1] != '\\' ==>
              Body(s[cur..]).0 == s[cur..next] && Body(s[cur..]).1 == s[BehindQuote(s, next)..]
    ensures next < |s| && s[next - 1] == '\\' ==>
              && cur < next && Body(s[cur..]).0 == s[cur..next - 1] + "\"" + Body(s[next + 1..]).0
              && Body(s[cur..]).1 == Body(s[next + 1..]).1
  {
    hide Body;
    var t, n := s[cur..], next - cur;
    BodyToQuote(t, n);
    if next == |s| {
      assert t == s[cur..next] && s[next..] == [];
    } else {
      assert t[n + 1..] == s[next + 1..] && t[..n] == s[cur..next];
      if n > 0 {
        assert t[n - 1] == s[next - 1] && t[..n - 1] == s[cur..next - 1];
      }
    }
  }

  lemma Associates(a: string, b: string, c: string)
    ensures a + b + c == a + (b + c)
  {
  }

  /** Copies up to a kept quote, drops the backslash before it, and puts the quote. */
  method CopyKeptQuote(a: array<char>, at: nat, s: string, cur: nat, next: nat) returns (end: nat)
    requires cur < next < |s| && at + (next - cur) <= a.Length
    modifies a
    ensures end == at + (next - cur) && a[..end] == old(a[..at]) + (s[cur..next - 1] + "\"")
  {
    end := at + (next - 1 - cur);
    Copy(a, at, s[cur..next - 1]);
    Copy(a, end, "\"");
    end := end + 1;
  }

  method TakeQuoted(s: string, argStart: nat, args: array<char>, end0: nat) returns (argStop: nat, end: nat)
    requires argStart < |s| && s[argStart] == '"' && end0 + (|s| - argStart) <= args.Length
    modifies args
    ensures argStart < argStop <= |s| && end0 <= end < end0 + (argStop - argStart)
    ensures Body(s[argStart + 1..]).1 == s[argStop..] && args[..end] == old(args[..end0]) + Body(s[argStart + 1..]).0
  {
    hide Body;
    var cur := argStart + 1;
    end := end0;
    ghost var before, written: string := args[..end0], [];
    while true
      invariant argStart < cur <= |s| && s[cur - 1] == '"' && end == end0 + |written| < end0 + (cur - argStart)
      invariant args[..end] == before + written
      invariant Body(s[argStart + 1..]).0 == written + Body(s[cur..]).0 && Body(s[argStart + 1..]).1 == Body(s[cur..]).1
      decreases |s| - cur
    {
      var next := FindQuote(s, cur);
      BodyAt(s, cur, next);
      if next == |s| || s[next - 1] != '\\' {
        argStop := BehindQuote(s, next);
        Copy(args, end, s[cur..next]);
        end := end + (next - cur);
        Associates(before, written, s[cur..next]);
        return;
      }
      end := CopyKeptQuote(args, end, s, cur, next);
      ghost var piece := s[cur..next - 1] + "\"";
      Associates(before, written, piece);
      Associates(written, piece, Body(s[next + 1..]).0);
      written := written + piece;
      cur := next + 1;
    }
  }

  // ---------- The whole layout ----------

  lemma {:induction false} TrimmedTwice(s: string)
    ensures Trimmed(Trimmed(s)) == Trimmed(s) && Arguments(Trimmed(s)) == Arguments(s)
  {
    if s != [] && IsSpace(s[0]) {
      TrimmedTwice(s[1..]);
    }
  }

  lemma OneString(arg: string)
    ensures Strings([arg]) == arg + "\0"
  {
    OneMoreString([], arg);
  }

  lemma ArgumentsStart(s: string, start: nat)
    requires start <= |s| && s[start..] == Trimmed(s[0..])
    ensures Arguments(s) == Arguments(s[start..])
  {
    assert s[0..] == s;
    TrimmedTwice(s);
  }

  lemma ArgumentsStep(s: string, start: nat, stop: nat, start': nat)
    requires start < |s| && !IsSpace(s[start]) && stop <= |s| && start' <= |s|
    requires Argument(s[start..]).1 == s[stop..] && s[start'..] == Trimmed(s[stop..])
    ensures Arguments(s[start..]) == [Argument(s[start..]).0] + Arguments(s[start'..])
  {
    assert s[start..][0] == s[start];
    assert Trimmed(s[start..]) == s[start..];
    TrimmedTwice(s[stop..]);
  }

  lemma NoArguments(s: string)
    ensures Arguments(s[|s|..]) == []
  {
  }

  lemma AssociatesAll(a: seq<string>, b: seq<string>, c: seq<string>)
    ensures a + b + c == a + (b + c)
  {
  }

  /** Every argument and its NUL fit in the space of the command line and one NUL more. */
  method CopyArguments(program: CString, arguments: CString, args: array<char>) returns (end: nat, argc: nat)
    requires args.Length == |program| + 1 + |arguments| + 1
    modifies args
    ensures end <= args.Length && args[..end] == Strings([program] + Arguments(arguments))
    ensures argc == |[program] + Arguments(arguments)|
  {
    hide Strings, Argument, Arguments, Trimmed;
    Copy(args, 0, program + "\0");
    end, argc := |program| + 1, 1;
    OneString(program);
    var argStart := FindFirstNotSpace(arguments, 0);
    ArgumentsStart(arguments, argStart);
    ghost var all: seq<string> := [program];
    while argStart != |arguments|
      invariant argStart <= |arguments| && argc == |all| && end <= args.Length && args[..end] == Strings(all)
      invariant [program] + Arguments(arguments) == all + Arguments(arguments[argStart..])
      invariant end <= |program| + 1 + argStart + if argStart == |arguments| then 1 else 0
      invariant argStart < |arguments| ==> !IsSpace(arguments[argStart])
      decreases |arguments| - argStart
    {
      argc := argc + 1;
      var argStop: nat;
      ghost var arg, start := Argument(arguments[argStart..]).0, argStart;
      argStop, end := CopyArgument(arguments, argStart, args, end, all);
      argStart := FindFirstNotSpace(arguments, argStop);
      ArgumentsStep(arguments, start, argStop, argStart);
      AssociatesAll(all, [arg], Arguments(arguments[argStart..]));
      all := all + [arg];
    }
    NoArguments(arguments);
    assert all + [] == all;
  }

  method CopyArgument(s: string, argStart: nat, args: array<char>, end0: nat, ghost all: seq<string>)
      returns (argStop: nat, end: nat)
    requires argStart < |s| && !IsSpace(s[argStart]) && end0 + (|s| - argStart) < args.Length
             && args[..end0] == Strings(all)
    modifies args
    ensures argStart < argStop <= |s| && end <= end0 + (argStop - argStart) + 1 && end <= args.Length
    ensures end == end0 + (argStop - argStart) + 1 && argStop < |s| ==> IsSpace(s[argStop])
    ensures Argument(s[argStart..]).1 == s[argStop..] && args[..end] == Strings(all + [Argument(s[argStart..]).0])
  {
    hide Strings, Argument;
    argStop, end := TakeArgument(s, argStart, args, end0);
    OneMoreString(all, Argument(s[argStart..]).0);
    ghost var text := args[..end];
    args[end] := '\0';
    end := end + 1;
    assert args[..end] == text + "\0";
  }

  // ---------- The pointers ----------

  /** Where each argument begins. */
  function Starts(args: seq<string>): (r: seq<nat>)
    ensures |r| == |args|
  {
    if args == [] then [] else Starts(args[..|args| - 1]) + [|Strings(args[..|args| - 1])|]
  }

  lemma {:induction false} StartsAt(args: seq<string>, i: nat)
    requires i < |args|
    ensures Starts(args)[i] == |Strings(args[..i])|
  {
    if i + 1 < |args| {
      StartsAt(args[..|args| - 1], i);
      assert args[..|args| - 1][..i] == args[..i];
    }
  }

  /** The length of the string that begins at `from`. */
  method Length(a: array<char>, from: nat, ghost arg: string) returns (n: nat)
    requires from + |arg| < a.Length && a[from..from + |arg|] == arg && a[from + |arg|] == '\0' && '\0' !in arg
    ensures n == |arg|
  {
    forall i | from <= i < from + |arg| ensures a[i] != '\0' {
      assert a[i] == a[from..from + |arg|][i - from] == arg[i - from];
    }
    n := 0;
    while a[from + n] != '\0'
      invariant n <= |arg|
      decreases |arg| - n
    {
      n := n + 1;
    }
  }

  const NULL: int := -1

  /** A pointer to every string, and a null pointer behind them. */
  method PointTo(args: array<char>, end: nat, argc: nat, ghost all: seq<string>) returns (argp: array<int>)
    requires end <= args.Length && args[..end] == Strings(all) && argc == |all|
             && forall i :: 0 <= i < |all| ==> '\0' !in all[i]
    ensures fresh(argp) && argp.Length == argc + 1 && argp[..argc] == Starts(all) && argp[argc] == NULL
  {
    hide Strings, Starts;
    argp := new int[argc + 1];
    var p, q := 0, 0;
    NoStrings(all);
    while p != end
      invariant q <= argc && p == |Strings(all[..q])| <= end
      invariant forall i :: 0 <= i < q ==> argp[i] == Starts(all)[i]
      decreases argc - q
    {
      SomeLeft(all, q);
      argp[q] := p;
      StartsAt(all, q);
      StringAt(args[..end], all, q);
      var n := Length(args, p, all[q]);
      p := p + n + 1;
      q := q + 1;
    }
    AllPointed(all, q);
    argp[q] := NULL;
    assert argp[..argc] == Starts(all);
  }

  lemma NoStrings(all: seq<string>)
    ensures Strings(all[..0]) == "" && Strings(all[..|all|]) == Strings(all)
  {
    assert all[..|all|] == all;
  }

  lemma SomeLeft(all: seq<string>, q: nat)
    requires q <= |all| && |Strings(all[..q])| != |Strings(all)|
    ensures q < |all|
  {
    assert all[..|all|] == all;
  }

  lemma AllPointed(all: seq<string>, q: nat)
    requires q <= |all| && |Strings(all[..q])| == |Strings(all)|
    ensures q == |all|
  {
    if q < |all| {
      StringsGrow(all, q);
    }
  }

  lemma StringAt(text: string, all: seq<string>, q: nat)
    requires text == Strings(all) && q < |all|
    ensures var p := |Strings(all[..q])|;
            && p + |all[q]| < |text| && text[p..p + |all[q]|] == all[q] && text[p + |all[q]|] == '\0'
            && |Strings(all[..q + 1])| == p + |all[q]| + 1 <= |text|
  {
    StringsGrow(all, q);
    var upTo := Strings(all[..q + 1]);
    assert text[..|upTo|] == upTo;
  }

  /** The arguments laid out for execv: the program and then those of the command line, each closed
      by a NUL, and a pointer to each. */
  method SplitArgs(program: CString, arguments: CString) returns (args: array<char>, argp: array<int>)
    ensures args.Length == |program| + 1 + |arguments| + 1
    ensures var all := [program] + Arguments(arguments);
            && |Strings(all)| <= args.Length && args[..|Strings(all)|] == Strings(all)
            && argp.Length == |all| + 1 && argp[..|all|] == Starts(all) && argp[|all|] == NULL
  {
    args := new char[|program| + 1 + |arguments| + 1](_ => ' ');
    var end, argc := CopyArguments(program, arguments, args);
    ArgumentsFrom(arguments);
    argp := PointTo(args, end, argc, [program] + Arguments(arguments));
  }
}
