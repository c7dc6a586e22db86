/** What cleaning does to a command, spelled out: which text is a comment, and what is dropped at the
    ends of the text. */
module CleanLaws {
  import opened Text
  import opened JsComments
  import opened ShellQuery
  import opened ShellCommands
  import opened Brackets
  import ShellRoundTrip

  // ----- comments

  lemma {:induction false} LineEndsAtBreak(s: string, rest: string)
    requires '\n' !in s && (rest != "" ==> rest[0] == '\n')
    ensures LineLength(s + rest) == |s|
  {
    if s == "" {
      assert s + rest == rest;
    } else {
      assert s == [s[0]] + s[1..];
      LineEndsAtBreak(s[1..], rest);
      assert (s + rest)[1..] == s[1..] + rest;
    }
  }

  /** A line comment goes, up to its line break or the end of the text. */
  lemma LineCommentGoes(line: string, rest: string)
    requires '\n' !in line && (rest != "" ==> rest[0] == '\n')
    ensures Strip("//" + line + rest) == Strip(rest)
  {
    hide First;
    LineFirst(line, rest);
    assert AfterFirst("//" + line + rest) == rest;
    assert "" + Strip(rest) == Strip(rest);
  }

  lemma LineFirst(line: string, rest: string)
    requires '\n' !in line && (rest != "" ==> rest[0] == '\n')
    ensures First("//" + line + rest) == LineComment("//" + line)
  {
    hide LineLength;
    var s := "//" + line + rest;
    assert '\n' !in "//" + line;
    LineEndsAtBreak("//" + line, rest);
    assert s[..|"//" + line|] == "//" + line;
  }

  predicate HasBlockEnd(s: string) {
    exists i | 0 <= i < |s| - 1 :: s[i] == '*' && s[i + 1] == '/'
  }

  lemma {:induction false} BlockEndsAtMark(s: string, rest: string)
    requires !HasBlockEnd(s + "*")
    ensures BlockLength(s + "*/" + rest) == |s| + 2
  {
    var t := s + "*/" + rest;
    if s != "" {
      assert forall i | 0 <= i < |s| :: (s[1..] + "*")[i] == (s + "*")[i + 1];
      assert !((s + "*")[0] == '*' && (s + "*")[0 + 1] == '/');
      BlockEndsAtMark(s[1..], rest);
      assert t[1..] == s[1..] + "*/" + rest;
      assert t[1] == (s + "*")[1];
    } else {
      assert t == "*/" + rest;
    }
  }

  /** A block comment becomes its line breaks and one space. */
  lemma BlockCommentGoes(inside: string, rest: string)
    requires !HasBlockEnd(inside + "*")
    ensures Strip("/*" + inside + "*/" + rest) == Repeat('\n', Count(inside, '\n')) + " " + Strip(rest)
  {
    hide First, Count, Repeat;
    var block := "/*" + inside + "*/";
    BlockFirst(inside, rest);
    MarkBreaks(inside);
    assert AfterFirst(block + rest) == rest;
  }

  lemma BlockFirst(inside: string, rest: string)
    requires !HasBlockEnd(inside + "*")
    ensures First("/*" + inside + "*/" + rest) == BlockComment("/*" + inside + "*/")
  {
    hide BlockLength, HasBlockEnd;
    var s := "/*" + inside + "*/" + rest;
    BlockEndsAtMark(inside, rest);
    SlicesOfBlock(inside, rest);
    assert OpensWith(s, '/', '*');
  }

  lemma SlicesOfBlock(inside: string, rest: string)
    ensures var s := "/*" + inside + "*/" + rest;
      s[2..] == inside + "*/" + rest && s[..|inside| + 4] == "/*" + inside + "*/" && s[0] == '/' && s[1] == '*'
  {
  }

  lemma MarkBreaks(inside: string)
    ensures Count("/*" + inside + "*/", '\n') == Count(inside, '\n')
  {
    CountConcat("/*" + inside, "*/", '\n');
    CountConcat("/*", inside, '\n');
    CountAbsent("/*", '\n');
    CountAbsent("*/", '\n');
  }

  lemma {:induction false} NoBlockEnd(s: string)
    requires !HasBlockEnd(s)
    ensures BlockLength(s) == |s|
  {
    if s != "" {
      assert forall i | 0 <= i < |s| - 1 :: s[1..][i] == s[i + 1];
      NoBlockEnd(s[1..]);
    }
  }

  /** So does one that is never closed. */
  lemma OpenBlockGoes(inside: string)
    requires !HasBlockEnd(inside)
    ensures Strip("/*" + inside) == Repeat('\n', Count(inside, '\n')) + " "
  {
    hide BlockLength, Count, Repeat;
    var s := "/*" + inside;
    NoBlockEnd(inside);
    assert s[2..] == inside && s[..|s|] == s && s[|s|..] == "";
    CountConcat("/*", inside, '\n');
    CountAbsent("/*", '\n');
    StripNothing();
    assert Repeat('\n', Count(inside, '\n')) + " " + "" == Repeat('\n', Count(inside, '\n')) + " ";
  }

  /** A string literal stays as it is, whatever is in it. */
  lemma LiteralStays(quote: char, body: string, rest: string)
    requires (quote == '"' || quote == '\'') && LeavesOpen(quote, body)
    ensures Strip([quote] + body + [quote] + rest) == [quote] + body + [quote] + Strip(rest)
  {
    hide LiteralLength, LeavesOpen;
    var text := [quote] + body + [quote];
    var s := text + rest;
    LiteralCloses(quote, body, rest);
    assert s[1..] == body + [quote] + rest;
    assert s[..|text|] == text && s[|text|..] == rest;
  }

  lemma {:induction false} NeverCloses(quote: char, body: string)
    requires LeavesOpen(quote, body)
    ensures LiteralLength(quote, body) == |body|
  {
    if body != "" {
      if body[0] == '\\' {
        NeverCloses(quote, body[2..]);
      } else {
        NeverCloses(quote, body[1..]);
      }
    }
  }

  lemma OpenLiteralStays(quote: char, body: string)
    requires (quote == '"' || quote == '\'') && LeavesOpen(quote, body)
    ensures Strip([quote] + body) == [quote] + body
  {
    hide LiteralLength, LeavesOpen;
    var s := [quote] + body;
    NeverCloses(quote, body);
    assert s[1..] == body && s[..|s|] == s && s[|s|..] == "";
    StripNothing();
    assert s + "" == s;
  }

  /** Any other character stays. */
  lemma OtherStays(c: char, rest: string)
    requires c != '"' && c != '\''
    requires c == '/' ==> (rest == "" || (rest[0] != '/' && rest[0] != '*'))
    ensures Strip([c] + rest) == [c] + Strip(rest)
  {
    assert AfterFirst([c] + rest) == rest;
  }

  // ----- the end of a command

  predicate Trailing(s: string) {
    forall i | 0 <= i < |s| :: s[i] == ';' || IsWhitespace(s[i])
  }

  lemma TrailingPart(s: string, k: nat)
    requires Trailing(s) && k <= |s|
    ensures Trailing(s[k..]) && PlainText(s)
  {
  }

  lemma {:induction false} OpenLiteralGrows(quote: char, s: string, end: string)
    requires Trailing(end) && IsQuote(quote)
    ensures LiteralLength(quote, s + end) == LiteralLength(quote, s)
         || (LiteralLength(quote, s) == |s| && LiteralLength(quote, s + end) == |s + end|)
  {
    if s == "" {
      NothingCloses(quote, end);
      assert s + end == end;
    } else if s[0] == '\\' && |s| > 1 {
      OpenLiteralGrows(quote, s[2..], end);
      assert (s + end)[2..] == s[2..] + end;
    } else if s[0] == '\\' && end != "" {
      NothingCloses(quote, end[1..]);
      assert (s + end)[2..] == end[1..];
    } else if s[0] != quote {
      OpenLiteralGrows(quote, s[1..], end);
      assert (s + end)[1..] == s[1..] + end;
    }
  }

  lemma {:induction false} NothingCloses(quote: char, end: string)
    requires Trailing(end) && IsQuote(quote)
    ensures LiteralLength(quote, end) == |end|
  {
    if end != "" {
      NothingCloses(quote, end[1..]);
    }
  }

  lemma {:induction false} OpenLineGrows(s: string, end: string)
    ensures LineLength(s + end) == if LineLength(s) < |s| then LineLength(s) else |s| + LineLength(end)
  {
    if s == "" {
      assert s + end == end;
    } else if s[0] != '\n' {
      OpenLineGrows(s[1..], end);
      assert (s + end)[1..] == s[1..] + end;
    }
  }

  lemma {:induction false} OpenBlockGrows(s: string, end: string)
    requires Trailing(end)
    ensures BlockLength(s + end) == BlockLength(s) || (BlockLength(s) == |s| && BlockLength(s + end) == |s + end|)
  {
    if s == "" {
      assert s + end == end;
      NoBlockEnd(end);
    } else if !(s[0] == '*' && |s| > 1 && s[1] == '/') {
      OpenBlockGrows(s[1..], end);
      assert (s + end)[1..] == s[1..] + end;
    }
  }

  /** In front of trailing text the first token is the same, or it is the last one and takes trailing text in. */
  lemma FirstBeforeEnd(text: string, end: string)
    requires text != "" && Trailing(end)
    ensures var t, g := First(text), First(text + end);
      || t == g
      || (t.Quoted? && t.quoted == text && g == Quoted(text + end))
      || (t.LineComment? && g.LineComment? && |t.line| == |text| <= |g.line|)
      || (t.BlockComment? && t.block == text && g == BlockComment(text + end))
  {
    if IsQuote(text[0]) {
      QuotedBeforeEnd(text, end);
    } else if OpensWith(text, '/', '/') {
      LineBeforeEnd(text, end);
    } else if OpensWith(text, '/', '*') {
      BlockBeforeEnd(text, end);
    } else {
      PlainBeforeEnd(text, end);
    }
  }

  lemma PlainBeforeEnd(text: string, end: string)
    requires text != "" && Trailing(end) && !IsQuote(text[0])
    requires !OpensWith(text, '/', '/') && !OpensWith(text, '/', '*')
    ensures First(text + end) == First(text)
  {
    hide LiteralLength, LineLength, BlockLength;
    assert |text| == 1 && end != "" ==> (text + end)[1] == end[0];
  }

  lemma QuotedBeforeEnd(text: string, end: string)
    requires text != "" && Trailing(end) && IsQuote(text[0])
    ensures First(text + end) == First(text)
         || (First(text) == Quoted(text) && First(text + end) == Quoted(text + end))
  {
    hide LiteralLength;
    assert (text + end)[1..] == text[1..] + end;
    OpenLiteralGrows(text[0], text[1..], end);
    WholeOrSame(text, end, 1 + LiteralLength(text[0], text[1..]));
    assert (text + end)[..|text + end|] == text + end;
  }

  lemma LineBeforeEnd(text: string, end: string)
    requires OpensWith(text, '/', '/')
    ensures var t, g := First(text), First(text + end);
      t == g || (t.LineComment? && g.LineComment? && |t.line| == |text| <= |g.line|)
  {
    hide LineLength;
    OpenLineGrows(text, end);
    WholeOrSame(text, end, LineLength(text));
  }

  lemma BlockBeforeEnd(text: string, end: string)
    requires OpensWith(text, '/', '*') && Trailing(end)
    ensures First(text + end) == First(text)
         || (First(text) == BlockComment(text) && First(text + end) == BlockComment(text + end))
  {
    hide BlockLength;
    assert (text + end)[2..] == text[2..] + end;
    OpenBlockGrows(text[2..], end);
    WholeOrSame(text, end, 2 + BlockLength(text[2..]));
    assert (text + end)[..|text + end|] == text + end;
  }

  lemma WholeOrSame(text: string, end: string, n: nat)
    requires n <= |text|
    ensures (text + end)[..n] == text[..n] && (n == |text| ==> text[..n] == text)
  {
  }

  lemma BlankTrails(n: nat)
    ensures Trailing(Repeat('\n', n) + " ")
  {
  }

  lemma LastToken(text: string)
    requires text != "" && |First(text).Source()| == |text|
    ensures Strip(text) == First(text).Kept()
  {
    hide First;
    assert AfterFirst(text) == "";
    StripNothing();
    assert First(text).Kept() + "" == First(text).Kept();
  }

  /** Trailing text only ever adds trailing text to what stripping leaves, or changes the blank text that a
      block comment without end leaves. */
  lemma {:induction false} StripBeforeEnd(text: string, end: string) returns (core: string, x: string, y: string)
    requires Trailing(end)
    ensures Strip(text) == core + x && Strip(text + end) == core + y && Trailing(x) && Trailing(y)
    decreases |text|
  {
    hide First, Strip;
    if text == "" {
      core, x, y := "", "", end;
      TrailingPart(end, 0);
      StripNothing();
      PlainPrefix(end, "");
      assert text + end == end && end + "" == end && "" + end == end;
      return;
    }
    var t, g := First(text), First(text + end);
    FirstBeforeEnd(text, end);
    if t == g {
      SameToken(text, end);
      core, x, y := StripBeforeEnd(AfterFirst(text), end);
      Assoc(t.Kept(), core, x);
      Assoc(t.Kept(), core, y);
      core := t.Kept() + core;
    } else {
      core, x, y := OpenToken(text, end);
    }
  }

  lemma SameToken(text: string, end: string)
    requires text != "" && First(text) == First(text + end)
    ensures AfterFirst(text + end) == AfterFirst(text) + end
    ensures Strip(text) == First(text).Kept() + Strip(AfterFirst(text))
    ensures Strip(text + end) == First(text).Kept() + Strip(AfterFirst(text) + end)
  {
    hide First;
  }

  lemma OpenToken(text: string, end: string) returns (core: string, x: string, y: string)
    requires text != "" && Trailing(end) && First(text) != First(text + end)
    ensures Strip(text) == core + x && Strip(text + end) == core + y && Trailing(x) && Trailing(y)
  {
    hide First, Strip, Repeat, Count;
    var t, g := First(text), First(text + end);
    FirstBeforeEnd(text, end);
    LastToken(text);
    if t.Quoted? {
      LastToken(text + end);
      core, x, y := text, "", end;
      assert text + "" == text;
    } else if t.BlockComment? {
      LastToken(text + end);
      core, x, y := "", t.Kept(), g.Kept();
      BlankTrails(Count(t.block, '\n'));
      BlankTrails(Count(g.block, '\n'));
      assert "" + x == x && "" + y == y;
    } else {
      var rest := AfterFirst(text + end);
      OpenLine(text, end);
      core, x, y := "", "", rest;
      PlainPrefix(rest, "");
      StripNothing();
      assert rest + "" == rest && "" + rest == rest;
    }
  }

  lemma OpenLine(text: string, end: string)
    requires text != "" && Trailing(end) && First(text + end).LineComment? && |First(text + end).line| >= |text|
    ensures Trailing(AfterFirst(text + end)) && PlainText(AfterFirst(text + end))
    ensures Strip(text + end) == "" + Strip(AfterFirst(text + end))
  {
    hide First;
    var k := |First(text + end).line| - |text|;
    assert AfterFirst(text + end) == end[k..];
    TrailingPart(end, k);
    TrailingPart(end[k..], 0);
  }

  lemma {:induction false} TerminatorsGo(s: string, x: string)
    requires Trailing(x)
    ensures TrimTerminators(s + x) == TrimTerminators(s)
    decreases |x|
  {
    if x == "" {
      assert s + x == s;
    } else {
      var n := |x| - 1;
      assert s + x == (s + x[..n]) + [x[n]];
      assert (s + x)[..|s + x| - 1] == s + x[..n];
      TerminatorsGo(s, x[..n]);
    }
  }

  lemma {:induction false} SpaceGoes(s: string)
    ensures TrimTerminators(TrimEnd(s)) == TrimTerminators(s)
  {
    if s != "" && IsWhitespace(s[|s| - 1]) {
      SpaceGoes(s[..|s| - 1]);
    }
  }

  lemma AllTrailing(x: string)
    requires Trailing(x)
    ensures TrimTerminators(x) == ""
  {
    TerminatorsGo("", x);
    assert "" + x == x;
  }

  lemma {:induction false} StartTrails(s: string)
    requires Trailing(s)
    ensures Trailing(TrimStart(s))
  {
    if s != "" && IsWhitespace(s[0]) {
      StartTrails(s[1..]);
    }
  }

  lemma {:induction false} StartBeforeEnd(s: string, x: string)
    requires Trailing(x)
    ensures TrimTerminators(TrimStart(s + x)) == TrimTerminators(TrimStart(s))
  {
    hide TrimTerminators;
    if s == "" {
      assert s + x == x;
      StartTrails(x);
      AllTrailing(TrimStart(x));
      AllTrailing("");
    } else if IsWhitespace(s[0]) {
      assert (s + x)[1..] == s[1..] + x;
      StartBeforeEnd(s[1..], x);
    } else {
      TerminatorsGo(s, x);
    }
  }

  lemma TrimmedEnds(s: string)
    ensures TrimTerminators(Trim(s)) == TrimTerminators(TrimStart(s))
  {
    SpaceGoes(TrimStart(s));
  }

  /** Semicolons and space behind a command make no difference, whatever the command is: a command with
      an open string or an open comment at its end included. */
  lemma EndMakesNoDifference(text: string, end: string)
    requires forall i | 0 <= i < |end| :: end[i] == ';' || IsWhitespace(end[i])
    ensures Clean(text + end) == Clean(text)
  {
    hide Strip, Trim, TrimStart, TrimTerminators;
    var core, x, y := StripBeforeEnd(text, end);
    TrimmedEnds(core + x);
    TrimmedEnds(core + y);
    StartBeforeEnd(core, x);
    StartBeforeEnd(core, y);
  }

  /** So every command is read the same with a semicolon behind it. */
  lemma SemicolonMakesNoDifference<J>(convert: string -> Option<J>, text: string)
    ensures ParseCommand(convert, text + ";") == ParseCommand(convert, text)
    ensures ParseQuery(convert, text + ";") == ParseQuery(convert, text)
    ensures SplitSibling(text + ";") == SplitSibling(text)
  {
    hide Clean, ParseCleaned, ParseCleanedCommand, SplitCleaned;
    EndMakesNoDifference(text, ";");
  }

  // ----- exactly what is dropped

  lemma {:induction false} StartDropped(s: string) returns (before: string)
    ensures s == before + TrimStart(s) && forall i | 0 <= i < |before| :: IsWhitespace(before[i])
  {
    if s != "" && IsWhitespace(s[0]) {
      var rest := StartDropped(s[1..]);
      before := [s[0]] + rest;
      assert s == [s[0]] + s[1..];
    } else {
      before := "";
      assert s == "" + s;
    }
  }

  lemma {:induction false} EndDropped(s: string) returns (after: string)
    ensures s == TrimTerminators(s) + after && Trailing(after)
  {
    if s != "" && (s[|s| - 1] == ';' || IsWhitespace(s[|s| - 1])) {
      var n := |s| - 1;
      var rest := EndDropped(s[..n]);
      after := rest + [s[n]];
      assert s == s[..n] + [s[n]];
      assert TrimTerminators(s[..n]) + rest + [s[n]] == TrimTerminators(s[..n]) + after;
    } else {
      after := "";
      assert s == s + "";
    }
  }

  /** A cleaned command is the text without comments, less the space in front of it and the space and
      semicolons behind it, and nothing else. */
  lemma CleanIs(text: string) returns (before: string, after: string)
    ensures Strip(text) == before + Clean(text) + after
    ensures forall i | 0 <= i < |before| :: IsWhitespace(before[i])
    ensures forall i | 0 <= i < |after| :: after[i] == ';' || IsWhitespace(after[i])
    ensures var c := Clean(text); c != "" ==> !IsWhitespace(c[0]) && c[|c| - 1] != ';' && !IsWhitespace(c[|c| - 1])
  {
    hide Strip, TrimStart, TrimEnd, Trim, TrimTerminators;
    var s := Strip(text);
    before := StartDropped(s);
    after := EndDropped(TrimStart(s));
    TrimmedEnds(s);
    Assoc(before, Clean(text), after);
    CleanedEdges(s);
    LastIsNoTerminator(Clean(text));
  }

  lemma LastIsNoTerminator(c: string)
    requires c != "" ==> !IsTerminator(c[|c| - 1])
    ensures c != "" ==> c[|c| - 1] != ';' && !IsWhitespace(c[|c| - 1])
  {
  }

  /** A text without a slash has no comment. */
  lemma {:induction false} SlashFree(s: string)
    requires '/' !in s
    ensures Strip(s) == s
    decreases |s|
  {
    hide First;
    if s != "" {
      var t := First(s);
      SlashFreeToken(s);
      assert s == t.Source() + AfterFirst(s);
      SlashFree(AfterFirst(s));
    }
  }

  lemma SlashFreeToken(s: string)
    requires s != "" && '/' !in s
    ensures First(s).Kept() == First(s).Source() && '/' !in AfterFirst(s)
  {
    hide LiteralLength, LineLength, BlockLength;
    assert s[0] in s;
  }

  lemma SlashFreeClean(s: string)
    requires '/' !in s && s != "" && !IsWhitespace(s[0]) && s[|s| - 1] != ';' && !IsWhitespace(s[|s| - 1])
    ensures Clean(s) == s
  {
    hide Strip, Trim, TrimTerminators;
    SlashFree(s);
    CleanedIsTrimmed(s);
  }

  // ----- helpers and refusals, spelled out

  /** `db` alone names the database, `show` alone is refused, and so is `use` alone, which is no helper. */
  lemma BareHelpers<J>(convert: string -> Option<J>, end: string)
    requires forall i | 0 <= i < |end| :: end[i] == ';' || IsWhitespace(end[i])
    ensures ParseCommand(convert, "db" + end) == Ok(DbName)
    ensures ParseCommand(convert, "show" + end) == Err(ShowWithoutArgument)
    ensures ParseCommand(convert, "use" + end) == Err(NotAQuery)
  {
    hide Clean;
    EndMakesNoDifference("db", end);
    EndMakesNoDifference("show", end);
    EndMakesNoDifference("use", end);
    SlashFreeClean("db");
    SlashFreeClean("show");
    SlashFreeClean("use");
  }

  lemma {:induction false} OnlyQuotes(quotes: string)
    requires forall i | 0 <= i < |quotes| :: quotes[i] == '"' || quotes[i] == '\''
    ensures TrimQuotes(quotes) == "" && '/' !in quotes
  {
    if quotes != "" {
      OnlyQuotes(quotes[1..]);
      assert quotes == [quotes[0]] + quotes[1..];
    }
  }

  /** `use` with nothing but quotes names no database. */
  lemma EmptyUse<J>(convert: string -> Option<J>, quotes: string)
    requires quotes != "" && forall i | 0 <= i < |quotes| :: quotes[i] == '"' || quotes[i] == '\''
    ensures ParseCommand(convert, "use " + quotes) == Err(UseWithoutName)
  {
    hide Clean, TrimQuotes, Trim, ParseQuery;
    OnlyQuotes(quotes);
    SlashFreeClean("use " + quotes);
    assert ("use " + quotes)[4..] == quotes;
    assert Trim(quotes) == quotes by { QuotesTrimmed(quotes); }
  }

  lemma QuotesTrimmed(quotes: string)
    requires forall i | 0 <= i < |quotes| :: quotes[i] == '"' || quotes[i] == '\''
    ensures Trim(quotes) == quotes
  {
  }

  /** `show` with any other word is refused. */
  lemma OtherShow<J>(convert: string -> Option<J>, what: string)
    requires what != "" && '/' !in what && !IsWhitespace(what[0])
    requires what[|what| - 1] != ';' && !IsWhitespace(what[|what| - 1])
    requires what != "dbs" && what != "databases" && what != "collections" && what != "tables"
    requires what != "users" && what != "roles" && what != "profile"
    ensures ParseCommand(convert, "show " + what) == Err(UnsupportedShow)
  {
    hide Clean, Trim, ParseQuery;
    assert '/' !in "show " + what;
    SlashFreeClean("show " + what);
    assert ("show " + what)[5..] == what && ("show " + what)[0] == 's';
    assert Trim(what) == what by { EdgesTrimmed(what); }
  }

  lemma EdgesTrimmed(s: string)
    requires s != "" && !IsWhitespace(s[0]) && !IsWhitespace(s[|s| - 1])
    ensures Trim(s) == s
  {
  }

  /** A query is refused for the first of these that holds of its cleaned text. */
  lemma QueryRefused<J>(convert: string -> Option<J>, text: string, name: string, rest: string)
    ensures !("db." <= Clean(text)) ==> ParseQuery(convert, text) == Err(NotAQuery)
    ensures Clean(text) == "db." + name && '.' !in name && !("getCollection(" <= name) ==>
      ParseQuery(convert, text) == Err(MissingCollection)
    ensures Clean(text) == "db." + (name + ("." + rest)) && ShellRoundTrip.PlainName(name) && '(' !in rest ==>
      ParseQuery(convert, text) == Err(MissingCall)
  {
    hide Clean, CloseParen, TrimQuotes, ParseArguments;
    if Clean(text) == "db." + name && '.' !in name && !("getCollection(" <= name) {
      assert ("db." + name)[3..] == name;
      NoDot(name);
    }
    if Clean(text) == "db." + (name + ("." + rest)) && ShellRoundTrip.PlainName(name) && '(' !in rest {
      assert ("db." + (name + ("." + rest)))[3..] == name + ("." + rest);
      ShellRoundTrip.ParsePlainCollection(name, rest);
      NoParen(rest);
    }
  }

  lemma NoDot(s: string)
    requires '.' !in s
    ensures Find(s, '.').None?
  {
  }

  lemma NoParen(s: string)
    requires '(' !in s
    ensures Find(s, '(').None?
  {
  }

  /** A call is refused for a missing end, for braces that do not match, for an argument that is not read,
      and a chain for text behind a call. */
  lemma CallRefused<J>(convert: string -> Option<J>, name: string, inside: string, after: string)
    requires '(' !in name
    ensures CloseParen(inside).None? ==> ParseCalls(convert, name + ("(" + inside)) == Err(MissingCloseParen)
    ensures Nested(inside) && Run(BracesOnly, Level(0), Trim(inside)).depth != 0 ==>
      ParseCalls(convert, name + ("(" + (inside + ")" + after))) == Err(UnbalancedArguments)
    ensures Nested(inside) && ParseArguments(convert, inside).Ok? ==>
      after != "" && !IsWhitespace(after[0]) && after[0] != '.' ==>
      ParseCalls(convert, name + ("(" + (inside + ")" + after))) == Err(TextAfterCall)
    ensures Nested(inside) && ParseArguments(convert, inside).Err? ==>
      ParseCalls(convert, name + ("(" + (inside + ")" + after))).Err?
  {
    hide CloseParen, Trim, Run, Nested, ParseArguments, Arguments, Find;
    FindAfter(name, '(', inside);
    assert name + ['('] + inside == name + ("(" + inside);
    assert (name + ("(" + inside))[|name| + 1..] == inside;
    if Nested(inside) {
      CloseAfterNested(inside, after);
      ShellRoundTrip.SliceCall(name, inside, after);
      FindAfter(name, '(', inside + ")" + after);
      assert name + ['('] + (inside + ")" + after) == name + ("(" + (inside + ")" + after));
      ArgumentsJoin(inside);
      Unbalanced(convert, inside);
    }
  }

  lemma Unbalanced<J>(convert: string -> Option<J>, inside: string)
    ensures Arguments(inside).Err? ==> ParseArguments(convert, inside) == Err(UnbalancedArguments)
  {
    hide Arguments;
  }

  /** A collection in `getCollection` is refused for a missing end, an empty name, and for anything but a
      dot behind it. */
  lemma CollectionRefused(inside: string, after: string)
    ensures CloseParen(inside).None? ==> ParseCollection("getCollection(" + inside) == Err(MissingCloseParen)
    ensures Nested(inside) && TrimQuotes(Trim(inside)) == "" ==>
      ParseCollection("getCollection(" + (inside + ")" + after)) == Err(EmptyName)
    ensures Nested(inside) && TrimQuotes(Trim(inside)) != "" ==>
      (after == "" || (!IsWhitespace(after[0]) && after[0] != '.')) ==>
      ParseCollection("getCollection(" + (inside + ")" + after)) == Err(NoMethodAfterCollection)
  {
    hide CloseParen, Trim, TrimQuotes, Nested;
    ShellRoundTrip.PrefixSplit("getCollection(", inside);
    ShellRoundTrip.PrefixSplit("getCollection(", inside + ")" + after);
    if Nested(inside) {
      CloseAfterNested(inside, after);
      ShellRoundTrip.SliceCall("x", inside, after);
    }
  }
}
