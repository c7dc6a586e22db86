/** Printing a MongoDB command and parsing it again. */
module ShellRoundTrip {
  import opened Text
  import opened Brackets
  import opened JsComments
  import opened ShellQuery

  // ----- the text of a query whose arguments are given as text

  function CallText(call: Call<string>): string {
    call.name + ("(" + (Join(call.args, ",") + ")"))
  }

  function CallsText(calls: seq<Call<string>>): string {
    if calls == [] then ""
    else if |calls| == 1 then CallText(calls[0])
    else CallText(calls[0]) + ("." + CallsText(calls[1..]))
  }

  function QueryText(q: Query<string>): string {
    "db." + (q.collection + ("." + CallsText(q.calls)))
  }

  /** Each argument closes what it opens and has no comma of its own, and the list has no parenthesis
      that would close the call. */
  predicate GoodArgs(args: seq<string>) {
    (forall i | 0 <= i < |args| :: IsArgument(args[i])) && Nested(Join(args, ","))
  }

  predicate GoodCall(call: Call<string>) {
    '(' !in call.name && GoodArgs(call.args)
  }

  predicate GoodCalls(calls: seq<Call<string>>) {
    calls != [] && forall i | 0 <= i < |calls| :: GoodCall(calls[i])
  }

  /** A name that is read up to its dot. */
  predicate PlainName(collection: string) {
    '.' !in collection && !("getCollection(" <= collection)
  }

  // ----- the space that the parser takes away

  function TrimFirst(args: seq<string>): (r: seq<string>)
    requires args != []
    ensures |r| == |args|
  {
    args[0 := TrimStart(args[0])]
  }

  function TrimLast(args: seq<string>): (r: seq<string>)
    requires args != []
    ensures |r| == |args|
  {
    args[|args| - 1 := TrimEnd(args[|args| - 1])]
  }

  /** The arguments without the space just inside the parentheses; nothing but space is no argument. */
  function Tight(args: seq<string>): seq<string> {
    if Trim(Join(args, ",")) == "" then [] else TrimLast(TrimFirst(if args == [] then [""] else args))
  }

  function TidyCalls(calls: seq<Call<string>>): (r: seq<Call<string>>)
    ensures |r| == |calls|
    ensures forall i | 0 <= i < |calls| :: r[i] == Call(Trim(calls[i].name), Tight(calls[i].args))
  {
    if calls == [] then [] else [Call(Trim(calls[0].name), Tight(calls[0].args))] + TidyCalls(calls[1..])
  }

  /** The query as the parser reports it. */
  function Tidy(q: Query<string>): Query<string> {
    Query(q.collection, TidyCalls(q.calls))
  }

  lemma {:induction false} TrimStartBefore(a: string, c: char, b: string)
    requires !IsWhitespace(c)
    ensures TrimStart(a + ([c] + b)) == TrimStart(a) + ([c] + b)
  {
    if a == "" {
      assert a + ([c] + b) == [c] + b;
    } else {
      assert (a + ([c] + b))[1..] == a[1..] + ([c] + b);
      TrimStartBefore(a[1..], c, b);
    }
  }

  lemma {:induction false} TrimEndAfter(b: string, c: char, a: string)
    requires !IsWhitespace(c)
    ensures TrimEnd(b + [c] + a) == b + [c] + TrimEnd(a)
  {
    if a == "" {
      assert b + [c] + a == b + [c];
    } else {
      assert (b + [c] + a)[..|b + [c] + a| - 1] == b + [c] + a[..|a| - 1];
      TrimEndAfter(b, c, a[..|a| - 1]);
    }
  }

  lemma JoinFirst(args: seq<string>)
    requires args != []
    ensures TrimStart(Join(args, ",")) == Join(TrimFirst(args), ",")
  {
    hide TrimStart;
    if |args| > 1 {
      var rest := Join(args[1..], ",");
      TrimStartBefore(args[0], ',', rest);
      assert args[0] + "," + rest == args[0] + ([','] + rest);
      assert TrimStart(args[0]) + "," + rest == TrimStart(args[0]) + ([','] + rest);
      assert TrimFirst(args)[1..] == args[1..];
    }
  }

  lemma {:induction false} JoinLast(args: seq<string>)
    requires args != []
    ensures TrimEnd(Join(args, ",")) == Join(TrimLast(args), ",")
  {
    hide TrimEnd;
    if |args| > 1 {
      JoinLast(args[1..]);
      assert TrimLast(args)[1..] == TrimLast(args[1..]);
      CommaBefore(args[0], Join(args[1..], ","));
    }
  }

  lemma CommaBefore(a: string, b: string)
    ensures TrimEnd(a + "," + b) == a + "," + TrimEnd(b)
  {
    TrimEndAfter(a, ',', b);
  }

  lemma TrimJoin(args: seq<string>)
    requires args != []
    ensures Trim(Join(args, ",")) == Join(TrimLast(TrimFirst(args)), ",")
  {
    hide TrimStart, TrimEnd, Join;
    JoinFirst(args);
    JoinLast(TrimFirst(args));
  }

  lemma BlankRun(kind: Kind, stop: char, c: char, s: string)
    requires IsWhitespace(c) && !IsWhitespace(stop)
    ensures Run(kind, Level(0), [c] + s) == Run(kind, Level(0), s)
    ensures Safe(kind, stop, Level(0), [c] + s) == Safe(kind, stop, Level(0), s)
  {
    assert ([c] + s)[1..] == s;
  }

  lemma {:induction false} WholeTrimStart(kind: Kind, stop: char, s: string)
    requires Whole(kind, stop, s) && !IsWhitespace(stop)
    ensures Whole(kind, stop, TrimStart(s))
  {
    hide Safe, Run;
    if s != "" && IsWhitespace(s[0]) {
      assert s == [s[0]] + s[1..];
      BlankRun(kind, stop, s[0], s[1..]);
      WholeTrimStart(kind, stop, s[1..]);
    }
  }

  /** Whitespace moves a scan to a level with no string open only from that very level. */
  lemma BlankEnd(kind: Kind, stop: char, s: string, c: char)
    requires IsWhitespace(c) && Whole(kind, stop, s + [c])
    ensures Whole(kind, stop, s)
  {
    hide Safe, Run;
    var st := Run(kind, Level(0), s);
    RunConcat(kind, Level(0), s, [c]);
    SafeConcat(kind, stop, Level(0), s, [c]);
    QuotesOnly(kind, Level(0), s);
    RunSteady(kind, Level(0), s);
    RunOne(kind, st, c);
    BlankStep(kind, st, c);
  }

  /** Only quotes open a string. */
  lemma {:induction false} QuotesOnly(kind: Kind, st: State, s: string)
    requires st.quote.Some? ==> IsQuote(st.quote.value)
    ensures var r := Run(kind, st, s); r.quote.Some? ==> IsQuote(r.quote.value)
    decreases |s|
  {
    if s != "" {
      QuotesOnly(kind, Step(kind, st, s[0]), s[1..]);
    }
  }

  lemma BlankStep(kind: Kind, st: State, c: char)
    requires IsWhitespace(c) && (st.quote.Some? ==> IsQuote(st.quote.value))
    ensures Step(kind, st, c) == if st.quote.Some? then st.(escaped := false) else st
  {
  }

  lemma {:induction false} WholeTrimEnd(kind: Kind, stop: char, s: string)
    requires Whole(kind, stop, s)
    ensures Whole(kind, stop, TrimEnd(s))
  {
    hide Whole;
    if s != "" && IsWhitespace(s[|s| - 1]) {
      var n := |s| - 1;
      assert s == s[..n] + [s[n]];
      BlankEnd(kind, stop, s[..n], s[n]);
      WholeTrimEnd(kind, stop, s[..n]);
    }
  }

  lemma TightAreArguments(args: seq<string>)
    requires args != [] && forall i | 0 <= i < |args| :: IsArgument(args[i])
    ensures var tight := TrimLast(TrimFirst(args)); forall i | 0 <= i < |tight| :: IsArgument(tight[i])
  {
    hide Whole, TrimStart, TrimEnd;
    var first, n := TrimFirst(args), |args| - 1;
    WholeTrimStart(BracesOnly, ',', args[0]);
    assert IsArgument(first[n]);
    WholeTrimEnd(BracesOnly, ',', first[n]);
  }

  // ----- arguments converted

  function ConvertCalls<J>(convert: string -> Option<J>, calls: seq<Call<string>>): Result<seq<Call<J>>, ShellError> {
    if calls == [] then Ok([])
    else
      match ConvertAll(convert, calls[0].args)
      case Err(e) => Err(e)
      case Ok(args) =>
        match ConvertCalls(convert, calls[1..])
        case Err(e) => Err(e)
        case Ok(more) => Ok([Call(calls[0].name, args)] + more)
  }

  function ConvertQuery<J>(convert: string -> Option<J>, q: Query<string>): Result<Query<J>, ShellError> {
    match ConvertCalls(convert, q.calls)
    case Err(e) => Err(e)
    case Ok(calls) => Ok(Query(q.collection, calls))
  }

  // ----- one call

  lemma TrimmedStays(s: string)
    requires Trimmed(s)
    ensures Trim(s) == s
  {
  }

  lemma ArgumentsOfJoin(args: seq<string>)
    requires forall i | 0 <= i < |args| :: IsArgument(args[i])
    ensures Arguments(Join(args, ",")) == Ok(Tight(args))
  {
    hide Run, Safe, Trim, Pieces;
    var text := Trim(Join(args, ","));
    if text != "" {
      assert args != [] by { NothingToTrim(); }
      TrimJoin(args);
      TightAreArguments(args);
      PiecesUndoJoin(TrimLast(TrimFirst(args)));
    }
  }

  lemma NothingToTrim()
    ensures Trim("") == ""
  {
  }

  /** A printed call is read back, whatever text comes after it. */
  lemma ParseGoodCall<J>(convert: string -> Option<J>, call: Call<string>, after: string)
    requires GoodCall(call)
    ensures ParseCall(convert, CallText(call) + after) ==
      match ConvertAll(convert, Tight(call.args))
      case Err(e) => Err(e)
      case Ok(args) => Ok(Parsed(Call(Trim(call.name), args), TrimStart(after)))
  {
    hide Trim, TrimStart, CloseParen, Nested, Arguments, IsArgument, Find, Tight;
    var body := Join(call.args, ",");
    var s := CallText(call) + after;
    assert s == call.name + ['('] + (body + ")" + after);
    FindAfter(call.name, '(', body + ")" + after);
    CloseAfterNested(body, after);
    ArgumentsOfJoin(call.args);
    SliceCall(call.name, body, after);
  }

  lemma SliceCall(name: string, body: string, after: string)
    ensures var s := name + ['('] + (body + ")" + after);
      && s[..|name|] == name && s[|name| + 1..] == body + ")" + after
      && (body + ")" + after)[..|body|] == body && (body + ")" + after)[|body| + 1..] == after
  {
  }

  lemma DotStays(s: string)
    ensures TrimStart("." + s) == "." + s && ("." + s)[1..] == s && TrimStart("") == ""
  {
  }

  lemma {:induction false} ParseGoodCalls<J>(convert: string -> Option<J>, calls: seq<Call<string>>)
    requires GoodCalls(calls)
    ensures ParseCalls(convert, CallsText(calls)) == ConvertCalls(convert, TidyCalls(calls))
  {
    hide ParseCall, GoodCall, CallText, TrimStart, Trim, Tight;
    assert TidyCalls(calls)[1..] == TidyCalls(calls[1..]);
    if |calls| == 1 {
      ParseGoodCall(convert, calls[0], "");
      DotStays("");
      assert CallText(calls[0]) + "" == CallText(calls[0]);
      assert ConvertCalls(convert, TidyCalls(calls[1..])) == Ok([]);
      OneCall(convert, TidyCalls(calls)[0]);
    } else {
      ParseGoodCalls(convert, calls[1..]);
      ParseGoodCall(convert, calls[0], "." + CallsText(calls[1..]));
      DotStays(CallsText(calls[1..]));
    }
  }

  lemma OneCall<J>(convert: string -> Option<J>, call: Call<string>)
    ensures match ConvertAll(convert, call.args)
      case Err(_) => true
      case Ok(args) => [Call(call.name, args)] + [] == [Call(call.name, args)]
  {
  }

  // ----- the whole query

  lemma PrefixSplit(prefix: string, s: string)
    ensures prefix <= prefix + s && (prefix + s)[|prefix|..] == s
  {
  }

  /** A collection name in front of its dot is not the start of `getCollection(`. */
  lemma NotGetCollection(collection: string, rest: string)
    requires '.' !in collection && !("getCollection(" <= collection)
    ensures !("getCollection(" <= collection + ("." + rest))
  {
    var s := collection + ("." + rest);
    var get := "getCollection(";
    if |collection| < |get| {
      assert s[|collection|] == '.' && '.' !in get;
    } else {
      assert s[..|get|] == collection[..|get|];
    }
  }

  lemma ParsePlainCollection(collection: string, rest: string)
    requires '.' !in collection && !("getCollection(" <= collection)
    ensures ParseCollection(collection + ("." + rest)) == Ok(Head(collection, rest))
  {
    hide CloseParen, TrimQuotes, Trim, TrimStart;
    NotGetCollection(collection, rest);
    FindAfter(collection, '.', rest);
    assert collection + ['.'] + rest == collection + ("." + rest);
    PrefixSplit(collection, "." + rest);
    PrefixSplit(".", rest);
    assert (collection + ("." + rest))[|collection| + 1..] == rest;
  }

  lemma {:induction false} CallsEnd(calls: seq<Call<string>>)
    requires calls != []
    ensures var s := CallsText(calls); s != "" && s[|s| - 1] == ')'
  {
    if |calls| > 1 {
      CallsEnd(calls[1..]);
    }
  }

  lemma EndsLike(a: string, b: string)
    requires b != ""
    ensures a + b != "" && (a + b)[|a + b| - 1] == b[|b| - 1]
  {
  }

  /** A printed query has nothing at its edges to clean away. */
  lemma CleanQuery(q: Query<string>)
    requires q.calls != [] && NoComments(QueryText(q))
    ensures Clean(QueryText(q)) == QueryText(q)
  {
    hide Strip, CallsText, Trim, TrimTerminators, NoComments;
    var text := QueryText(q);
    NoCommentsIff(text);
    CallsEnd(q.calls);
    EndsLike(".", CallsText(q.calls));
    EndsLike(q.collection, "." + CallsText(q.calls));
    EndsLike("db.", q.collection + ("." + CallsText(q.calls)));
    assert text[0] == 'd';
    CleanedIsTrimmed(text);
  }

  /** Parsing a printed query gives back its collection and its calls, without the space that the
      parser takes away and with each argument as the converter reads it. */
  lemma ParsePrinted<J>(convert: string -> Option<J>, q: Query<string>)
    requires PlainName(q.collection) && GoodCalls(q.calls) && NoComments(QueryText(q))
    ensures ParseQuery(convert, QueryText(q)) == ConvertQuery(convert, Tidy(q))
  {
    hide Clean, CallsText, ParseCalls, ConvertCalls, ParseCollection, TidyCalls, NoComments, GoodCalls;
    CleanQuery(q) by { assert q.calls != [] by { CallsNotEmpty(q.calls); } }
    PrefixSplit("db.", q.collection + ("." + CallsText(q.calls)));
    ParsePlainCollection(q.collection, CallsText(q.calls));
    ParseGoodCalls(convert, q.calls);
  }

  lemma CallsNotEmpty(calls: seq<Call<string>>)
    requires GoodCalls(calls)
    ensures calls != []
  {
  }

  // ----- exactly when the round trip holds

  /** Arguments kept as they were written. */
  function Verbatim(text: string): Option<string> {
    Some(text)
  }

  lemma {:induction false} VerbatimParts(parts: seq<string>)
    ensures ConvertAll(Verbatim, parts) == Ok(parts)
  {
    if parts != [] {
      VerbatimParts(parts[1..]);
      assert [parts[0]] + parts[1..] == parts;
    }
  }

  lemma {:induction false} VerbatimCalls(calls: seq<Call<string>>)
    ensures ConvertCalls(Verbatim, calls) == Ok(calls)
  {
    if calls != [] {
      VerbatimParts(calls[0].args);
      VerbatimCalls(calls[1..]);
      assert [calls[0]] + calls[1..] == calls;
    }
  }

  lemma TrimShorter(s: string)
    ensures |Trim(s)| <= |s|
  {
    PrefixOfPrefix(Trim(s), TrimStart(s), TrimStart(s));
  }

  lemma TrimIsTrimmed(s: string)
    ensures Trimmed(Trim(s))
  {
    var start := TrimStart(s);
    var r := TrimEnd(start);
    if r != "" {
      assert r[0] == start[0];
    }
  }

  /** No space at the edges of a list, and no argument without text. */
  predicate TidyArgs(args: seq<string>) {
    Trimmed(Join(args, ",")) && (args == [] <==> Join(args, ",") == "")
  }

  predicate TidyCall(call: Call<string>) {
    Trimmed(call.name) && '(' !in call.name && TidyArgs(call.args)
  }

  lemma TightTidy(args: seq<string>)
    requires TidyArgs(args) && forall i | 0 <= i < |args| :: IsArgument(args[i])
    ensures Tight(args) == args
  {
    hide Run, Safe, Trim, Pieces, IsArgument;
    TrimmedStays(Join(args, ","));
    ArgumentsOfJoin(args);
    if args != [] {
      PiecesUndoJoin(args);
      ArgumentsUnfold(Join(args, ","));
    }
  }

  lemma ArgumentsUnfold(text: string)
    requires Trim(text) == text && text != "" && Run(BracesOnly, Level(0), text) == Level(0)
    ensures Arguments(text) == Ok(Pieces(Level(0), text))
  {
    hide Trim, Pieces, Run;
  }

  lemma ArgsLength(text: string, args: seq<string>)
    requires ParseArguments(Verbatim, text) == Ok(args)
    ensures |Join(args, ",")| <= |text| && TidyArgs(args)
  {
    hide Trim;
    TrimShorter(text);
    TrimIsTrimmed(text);
    ArgumentsJoin(text);
    VerbatimParts(Arguments(text).value);
  }

  /** What stands in a call's parentheses is cut into arguments that are closed and well nested. */
  lemma ArgsWhole(text: string, args: seq<string>)
    requires ParseArguments(Verbatim, text) == Ok(args) && Nested(text)
    ensures GoodArgs(args)
  {
    hide Trim, TrimStart, TrimEnd, Run, Safe, Pieces;
    var core := Trim(text);
    ArgumentsJoin(text);
    VerbatimParts(Arguments(text).value);
    WholeTrimStart(AllBrackets, ')', text);
    WholeTrimEnd(AllBrackets, ')', TrimStart(text));
    TrimIs(text);
    if core != "" {
      SameQuotes(Level(0), Level(0), core);
      assert Run(BracesOnly, Level(0), core) == Level(0);
      PiecesAreCutAtCommas(Level(0), core);
      PiecesAreArguments(args);
    }
  }

  lemma TrimIs(s: string)
    ensures Trim(s) == TrimEnd(TrimStart(s))
  {
  }

  lemma NoParen(s: string)
    requires '(' !in s
    ensures '(' !in Trim(s)
  {
    var start := TrimStart(s);
    assert forall i | 0 <= i < |Trim(s)| :: Trim(s)[i] == start[i];
    NoParenStart(s);
  }

  lemma {:induction false} NoParenStart(s: string)
    requires '(' !in s
    ensures '(' !in TrimStart(s)
  {
    if s != "" && IsWhitespace(s[0]) {
      assert s == [s[0]] + s[1..];
      NoParenStart(s[1..]);
    }
  }

  lemma CallLength(rest: string, r: Parsed<string>)
    requires ParseCall(Verbatim, rest) == Ok(r)
    ensures |CallText(r.call)| + |r.after| <= |rest| && TidyCall(r.call) && GoodArgs(r.call.args)
  {
    hide ParseArguments, Trim, TrimStart, CloseParen, Join, TidyArgs, GoodArgs, Nested;
    var paren := Find(rest, '(').value;
    var afterParen := rest[paren + 1..];
    var close := CloseParen(afterParen).value;
    TrimShorter(rest[..paren]);
    TrimIsTrimmed(rest[..paren]);
    NoParen(rest[..paren]);
    ArgsLength(afterParen[..close], r.call.args);
    FoundIsNested(afterParen, close);
    ArgsWhole(afterParen[..close], r.call.args);
  }

  lemma {:induction false} CallsLength(rest: string, calls: seq<Call<string>>)
    requires ParseCalls(Verbatim, rest) == Ok(calls)
    ensures calls != [] && |CallsText(calls)| <= |rest|
    ensures forall i | 0 <= i < |calls| :: TidyCall(calls[i]) && GoodArgs(calls[i].args)
    decreases |rest|
  {
    hide ParseCall, CallText, TidyCall, GoodArgs;
    var r := ParseCall(Verbatim, rest).value;
    CallLength(rest, r);
    if r.after != "" {
      CallsLength(r.after[1..], calls[1..]);
    }
  }

  /** The form with `getCollection` takes more text than the plain one. */
  lemma CollectionLength(rest: string, head: Head)
    requires ParseCollection(rest) == Ok(head)
    ensures |head.collection| + 1 + |head.rest| <= |rest|
    ensures PlainName(head.collection) || |head.collection| + 1 + |head.rest| < |rest|
  {
    hide Trim, TrimQuotes, TrimStart, CloseParen;
    if "getCollection(" <= rest {
      var after := rest[|"getCollection("|..];
      var close := CloseParen(after).value;
      TrimShorter(after[..close]);
    } else {
      PrefixGrows("getCollection(", head.collection, rest);
    }
  }

  lemma PrefixGrows(p: string, a: string, b: string)
    requires a <= b && !(p <= b)
    ensures !(p <= a)
  {
  }

  /** A command is never shorter than the printed form of what it parses to, and as short only when
      that is a query with a plain name. */
  lemma QueryLength(text: string, q: Query<string>)
    requires ParseQuery(Verbatim, text) == Ok(q)
    ensures |QueryText(q)| <= |Clean(text)| && (PlainName(q.collection) || |QueryText(q)| < |Clean(text)|)
    ensures q.calls != [] && forall i | 0 <= i < |q.calls| :: TidyCall(q.calls[i]) && GoodArgs(q.calls[i].args)
  {
    hide ParseCollection, ParseCalls, Clean, CallsText, PlainName, TidyCall, GoodArgs;
    var rest := Clean(text)[3..];
    var head := ParseCollection(rest).value;
    CollectionLength(rest, head);
    CallsLength(head.rest, q.calls);
  }

  lemma {:induction false} StripSameLength(s: string)
    requires |Strip(s)| == |s|
    ensures Strip(s) == s
  {
    if s != "" {
      StripShrinks(AfterFirst(s));
      CommentShrinks(s);
      StripSameLength(AfterFirst(s));
    }
  }

  lemma CleanShorter(text: string)
    ensures |Clean(text)| <= |Strip(text)| <= |text|
  {
    hide Strip;
    StripShrinks(text);
    TrimShorter(Strip(text));
  }

  lemma TidyStays(q: Query<string>)
    requires forall i | 0 <= i < |q.calls| :: TidyCall(q.calls[i]) && GoodArgs(q.calls[i].args)
    ensures Tidy(q) == q
  {
    hide Trim, Tight, TidyArgs;
    forall i | 0 <= i < |q.calls| ensures TidyCalls(q.calls)[i] == q.calls[i] {
      assert TidyCall(q.calls[i]) && GoodArgs(q.calls[i].args);
      TrimmedStays(q.calls[i].name);
      TightTidy(q.calls[i].args);
    }
    assert TidyCalls(q.calls) == q.calls;
  }

  /** What has to be written for the parser to give back just that. */
  predicate ReadsBack(q: Query<string>) {
    && PlainName(q.collection) && NoComments(QueryText(q))
    && q.calls != [] && forall i | 0 <= i < |q.calls| :: TidyCall(q.calls[i]) && GoodArgs(q.calls[i].args)
  }

  lemma ParsesBack(q: Query<string>)
    requires ReadsBack(q)
    ensures ParseQuery(Verbatim, QueryText(q)) == Ok(q)
  {
    hide ParseQuery, QueryText, NoComments, PlainName, GoodArgs, TidyArgs;
    assert GoodCalls(q.calls) by {
      assert forall i | 0 <= i < |q.calls| :: TidyCall(q.calls[i]) && GoodArgs(q.calls[i].args);
    }
    ParsePrinted(Verbatim, q);
    TidyStays(q);
    VerbatimCalls(q.calls);
  }

  lemma ParsedIsPlain(q: Query<string>)
    requires ParseQuery(Verbatim, QueryText(q)) == Ok(q)
    ensures ReadsBack(q)
  {
    hide ParseQuery, QueryText, Clean, Strip, NoComments, PlainName, TidyCall, GoodArgs;
    var text := QueryText(q);
    QueryLength(text, q);
    CleanShorter(text);
    StripSameLength(text);
    NoCommentsIff(text);
  }

  /** For every collection and every list of calls, the round trip holds exactly when the collection is
      dot-free and does not start with `getCollection(`, there is a call, the method names have no
      parenthesis and, like the argument lists, no space at their edges, the arguments close what
      they open and have no comma or closing parenthesis of their own, and no comment token is in
      the text. */
  lemma RoundTripIff(q: Query<string>)
    ensures ParseQuery(Verbatim, QueryText(q)) == Ok(q) <==> ReadsBack(q)
  {
    hide ParseQuery, QueryText, ReadsBack, GoodArgs;
    if ReadsBack(q) {
      ParsesBack(q);
    }
    if ParseQuery(Verbatim, QueryText(q)) == Ok(q) {
      ParsedIsPlain(q);
    }
  }

  // ----- names that are not given back

  lemma NoArgsGood(name: string)
    ensures GoodArgs(Call(name, []).args) && CallText(Call(name, [])) == name + "()"
  {
    assert "(" + ("" + ")") == "()";
    assert Nested("");
  }

  lemma NotGivenBack(collection: string, name: string)
    requires !ReadsBack(Query(collection, [Call(name, [])]))
    ensures var q := Query(collection, [Call(name, [])]); ParseQuery(Verbatim, QueryText(q)) != Ok(q)
  {
    hide ParseQuery, QueryText, ReadsBack;
    NoArgsGood(name);
    RoundTripIff(Query(collection, [Call(name, [])]));
  }

  /** A dot-free collection name that opens a comment. */
  lemma CommentInName()
    ensures var q := Query("a//b", [Call("find", [])]);
      '.' !in q.collection && ParseQuery(Verbatim, QueryText(q)) != Ok(q)
  {
    hide ParseQuery, Strip, CallText, Tokens;
    var q := Query("a//b", [Call("find", [])]);
    NoArgsGood("find");
    assert CallsText(q.calls) == "find()";
    assert QueryText(q) == "db.a//b" + ".find()";
    var name := "db.a//b";
    assert name[4] == '/' && name[4 + 1] == '/';
    QuoteFreeComment(name, ".find()");
    NoCommentsIff(QueryText(q));
    NotGivenBack("a//b", "find");
  }

  /** A dot-free collection name that looks like the call which names a collection. */
  lemma CallInName()
    ensures var q := Query("getCollection(x", [Call("find", [])]);
      '.' !in q.collection && ParseQuery(Verbatim, QueryText(q)) != Ok(q)
  {
    hide ParseQuery, QueryText;
    assert "getCollection(" <= "getCollection(x";
    NotGivenBack("getCollection(x", "find");
  }

  /** A method name with a space in front of it. */
  lemma SpaceInName()
    ensures var q := Query("a", [Call(" find", [])]); ParseQuery(Verbatim, QueryText(q)) != Ok(q)
  {
    hide ParseQuery, QueryText;
    assert !TidyCall(Query("a", [Call(" find", [])]).calls[0]) by { assert IsWhitespace(" find"[0]); }
    NotGivenBack("a", " find");
  }
}
