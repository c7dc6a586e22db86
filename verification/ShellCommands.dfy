/** The other commands of the console: the shell helpers, calls on the database itself, a collection
    named by `getCollection`, and a command aimed at a sibling database. */
module ShellCommands {
  import opened Text
  import opened Brackets
  import opened JsComments
  import opened ShellQuery
  import opened ShellRoundTrip
  import JsonScan
  import JsonSyntax

  datatype Command<J> =
    | UseDb(name: string) | ShowDbs | ShowCollections | ShowUsers | ShowRoles | ShowProfile | DbName
    | DbCall(call: Call<J>)
    | RunQuery(query: Query<J>)

  predicate IsDbMethod(name: string) {
    || name == "getName" || name == "getCollectionNames" || name == "getCollectionInfos" || name == "stats"
    || name == "version" || name == "serverStatus" || name == "runCommand" || name == "adminCommand"
  }

  function ParseShow<J>(what: string): Result<Command<J>, ShellError> {
    if what == "dbs" || what == "databases" then Ok(ShowDbs)
    else if what == "collections" || what == "tables" then Ok(ShowCollections)
    else if what == "users" then Ok(ShowUsers)
    else if what == "roles" then Ok(ShowRoles)
    else if what == "profile" then Ok(ShowProfile)
    else Err(UnsupportedShow)
  }

  /** The text in front of the first parenthesis names a method of the database. */
  predicate CallsDatabase(rest: string) {
    var paren := Find(rest, '(');
    paren.Some? && IsDbMethod(Trim(rest[..paren.value]))
  }

  function ParseDbCall<J>(convert: string -> Option<J>, rest: string): Result<Command<J>, ShellError>
    requires CallsDatabase(rest)
  {
    var paren := Find(rest, '(').value;
    var afterParen := rest[paren + 1..];
    var close := CloseParen(afterParen);
    if close.None? then Err(MissingCloseParen)
    else if Trim(afterParen[close.value + 1..]) != "" then Err(TextAfterCall)
    else
      match ParseArguments(convert, afterParen[..close.value])
      case Err(e) => Err(e)
      case Ok(args) => Ok(DbCall(Call(Trim(rest[..paren]), args)))
  }

  function ParseCommand<J>(convert: string -> Option<J>, input: string): Result<Command<J>, ShellError> {
    ParseCleanedCommand(convert, Clean(input))
  }

  function ParseCleanedCommand<J>(convert: string -> Option<J>, text: string): Result<Command<J>, ShellError> {
    if "use " <= text then
      var name := TrimQuotes(Trim(text[4..]));
      if name == "" then Err(UseWithoutName) else Ok(UseDb(name))
    else if "show " <= text then ParseShow(Trim(text[5..]))
    else if text == "show" then Err(ShowWithoutArgument)
    else if text == "db" then Ok(DbName)
    else if "db." <= text && CallsDatabase(text[3..]) then ParseDbCall(convert, text[3..])
    else AsCommand(ParseQuery(convert, text))
  }

  function AsCommand<J>(query: Result<Query<J>, ShellError>): Result<Command<J>, ShellError> {
    match query
    case Err(e) => Err(e)
    case Ok(q) => Ok(RunQuery(q))
  }

  datatype Aimed = Aimed(database: Option<string>, command: string)

  const SIBLING := "db.getSiblingDB("

  function SplitSibling(input: string): Result<Aimed, ShellError> {
    SplitCleaned(Clean(input))
  }

  function SplitCleaned(text: string): Result<Aimed, ShellError> {
    if !(SIBLING <= text) then Ok(Aimed(None, text))
    else
      var after := text[|SIBLING|..];
      var close := CloseParen(after);
      if close.None? then Err(MissingCloseParen)
      else
        var name := TrimQuotes(Trim(after[..close.value]));
        var tail := TrimStart(after[close.value + 1..]);
        if name == "" then Err(EmptyName)
        else if tail == "" || tail[0] != '.' then Err(NoCallAfterSibling)
        else Ok(Aimed(Some(name), "db" + tail))
  }

  // ----- a command passes through the cleaner up to three times

  /** Each stage may be given the text as typed or as an earlier stage cleaned it. */
  lemma CleaningOnceIsEnough<J>(convert: string -> Option<J>, text: string)
    ensures ParseQuery(convert, Clean(text)) == ParseQuery(convert, text)
    ensures ParseCommand(convert, Clean(text)) == ParseCommand(convert, text)
    ensures SplitSibling(Clean(text)) == SplitSibling(text)
  {
    hide Clean, ParseCleaned, ParseCleanedCommand, SplitCleaned;
    CleanIdempotent(text);
  }

  // ----- the shell helpers

  /** A command that begins with its own text and ends in something that is not cut off. */
  lemma HelperClean(word: string, rest: string)
    requires word != "" && !IsWhitespace(word[0]) && rest != "" && !IsTerminator(rest[|rest| - 1])
    requires NoComments(word + rest)
    ensures Clean(word + rest) == word + rest
  {
    hide NoComments, Strip, TrimTerminators, Trim;
    NoCommentsIff(word + rest);
    EndsLike(word, rest);
    CleanedIsTrimmed(word + rest);
  }

  /** The words that each `show` command answers to. */
  function ShowWords<J>(c: Command<J>): seq<string> {
    match c
    case ShowDbs => ["dbs", "databases"]
    case ShowCollections => ["collections", "tables"]
    case ShowUsers => ["users"]
    case ShowRoles => ["roles"]
    case ShowProfile => ["profile"]
    case _ => []
  }

  lemma ShowTable<J>(what: string, c: Command<J>)
    ensures ParseShow(what) == Ok(c) <==> what in ShowWords(c)
  {
  }

  /** A command that starts with `show` is read as `c` exactly when what follows, without the space
      around it, is one of the words of `c`. */
  lemma ShowIsRead<J>(convert: string -> Option<J>, what: string, c: Command<J>)
    requires what != "" && !IsTerminator(what[|what| - 1]) && NoComments("show " + what)
    ensures ParseCommand(convert, "show " + what) == Ok(c) <==> Trim(what) in ShowWords(c)
  {
    hide Clean, ParseQuery, ParseShow, NoComments, Trim, ShowWords;
    HelperClean("show ", what);
    PrefixSplit("show ", what);
    ShowTable(Trim(what), c);
    assert !("use " <= "show " + what) by { assert ("show " + what)[0] == 's'; }
  }

  predicate Quoting(quote: string) {
    quote == "" || quote == "\"" || quote == "'"
  }

  lemma QuotingGoes(quote: string, name: string)
    requires Quoting(quote) && name != "" && !IsQuote(name[0]) && !IsQuote(name[|name| - 1])
    ensures TrimQuotes(quote + name + quote) == name
  {
    var rest := name + quote;
    assert TrimQuotes(name) == name;
    if quote == "" {
      assert quote + name + quote == name;
    } else {
      assert (quote + name + quote)[1..] == rest;
      assert rest[..|rest| - 1] == name;
    }
  }

  /** `use` names that database, in quotes of either kind or without. */
  lemma UseIsRead<J>(convert: string -> Option<J>, quote: string, name: string)
    requires Quoting(quote) && name != "" && !IsQuote(name[0]) && !IsQuote(name[|name| - 1])
    requires quote == "" ==> Trimmed(name) && !IsTerminator(name[|name| - 1])
    requires NoComments("use " + (quote + name + quote))
    ensures ParseCommand(convert, "use " + (quote + name + quote)) == Ok(UseDb(name))
  {
    hide Clean, ParseQuery, ParseShow, NoComments, TrimQuotes, Trim;
    var text := quote + name + quote;
    QuotingEnds(quote, name);
    HelperClean("use ", text);
    PrefixSplit("use ", text);
    TrimmedStays(text);
    QuotingGoes(quote, name);
  }

  lemma QuotingEnds(quote: string, name: string)
    requires Quoting(quote) && name != ""
    requires quote == "" ==> Trimmed(name) && !IsTerminator(name[|name| - 1])
    ensures var text := quote + name + quote; text != "" && Trimmed(text) && !IsTerminator(text[|text| - 1])
  {
    if quote == "" {
      assert quote + name + quote == name;
    }
  }

  // ----- queries are not mistaken for calls on the database

  lemma {:induction false} DotInTrimStart(s: string)
    requires '.' in s
    ensures '.' in TrimStart(s)
  {
    if IsWhitespace(s[0]) {
      assert s == [s[0]] + s[1..];
      DotInTrimStart(s[1..]);
    }
  }

  lemma {:induction false} DotInTrimEnd(s: string)
    requires '.' in s
    ensures '.' in TrimEnd(s)
  {
    var n := |s| - 1;
    if IsWhitespace(s[n]) {
      assert s == s[..n] + [s[n]];
      DotInTrimEnd(s[..n]);
    }
  }

  lemma NoDotInMethods(name: string)
    requires '.' in name
    ensures !IsDbMethod(name)
  {
  }

  lemma FirstCall(calls: seq<Call<string>>) returns (more: string)
    requires calls != []
    ensures CallsText(calls) == calls[0].name + ("(" + more)
  {
    var call := calls[0];
    var inside := Join(call.args, ",") + ")";
    more := if |calls| == 1 then inside else inside + ("." + CallsText(calls[1..]));
    assert call.name + ("(" + inside) == CallText(call);
  }

  /** A collection name that begins like the call of a method of the database. */
  predicate DbHead(collection: string) {
    var paren := Find(collection, '(');
    paren.Some? && IsDbMethod(Trim(collection[..paren.value]))
  }

  lemma {:induction false} FindInFront(a: string, c: char, b: string)
    requires c in a
    ensures Find(a + b, c) == Find(a, c)
  {
    assert a == [a[0]] + a[1..];
    if a[0] != c {
      FindInFront(a[1..], c, b);
      assert (a + b)[1..] == a[1..] + b;
    }
  }

  lemma DotHead(collection: string, name: string, more: string)
    requires '(' !in collection && '(' !in name
    ensures !CallsDatabase(collection + ("." + (name + ("(" + more))))
  {
    hide Trim, IsDbMethod;
    var head := collection + "." + name;
    FindAfter(head, '(', more);
    var rest := collection + ("." + (name + ("(" + more)));
    assert rest == head + ['('] + more;
    assert rest[..|head|] == head;
    assert head[|collection|] == '.';
    DotInTrimStart(head);
    DotInTrimEnd(TrimStart(head));
    DotInTrim(head);
    NoDotInMethods(Trim(head));
  }

  lemma QueryIsDbCallIff(q: Query<string>)
    requires q.calls != [] && '(' !in q.calls[0].name
    ensures CallsDatabase(q.collection + ("." + CallsText(q.calls))) <==> DbHead(q.collection)
  {
    hide CallsText, Trim, IsDbMethod, Find;
    if '(' in q.collection {
      var rest := "." + CallsText(q.calls);
      FindInFront(q.collection, '(', rest);
      FoundParen(q.collection);
      var at := Find(q.collection, '(').value;
      assert (q.collection + rest)[..at] == q.collection[..at];
    } else {
      var more := FirstCall(q.calls);
      DotHead(q.collection, q.calls[0].name, more);
      FoundParen(q.collection);
    }
  }

  lemma FoundParen(s: string)
    ensures Find(s, '(').Some? <==> '(' in s
    ensures Find(s, '(').Some? ==> Find(s, '(').value < |s|
  {
  }

  lemma DotInTrim(s: string)
    requires '.' in TrimEnd(TrimStart(s))
    ensures '.' in Trim(s)
  {
  }

  /** A printed query is run as that query, unless its collection name begins like a call on the
      database: then it never is. */
  lemma QueryIsCommand<J(!new)>(convert: string -> Option<J>, q: Query<string>)
    requires PlainName(q.collection) && GoodCalls(q.calls) && NoComments(QueryText(q))
    ensures !DbHead(q.collection) ==> ParseCommand(convert, QueryText(q)) == AsCommand(ConvertQuery(convert, Tidy(q)))
    ensures DbHead(q.collection) ==> forall query :: ParseCommand(convert, QueryText(q)) != Ok(RunQuery(query))
  {
    hide Clean, Strip, CallsText, ParseQuery, ConvertQuery, CallsDatabase, ParseDbCall, GoodCalls, ParseShow,
         Tidy, NoComments, DbHead, PlainName;
    var text := QueryText(q);
    FirstIsGood(q);
    CleanQuery(q);
    PrefixSplit("db.", q.collection + ("." + CallsText(q.calls)));
    assert text[..3] == "db." && text[0] == 'd' && text[2] == '.';
    QueryIsDbCallIff(q);
    ParsePrinted(convert, q);
    if DbHead(q.collection) {
      DbCallIsNoQuery(convert, text[3..]);
    }
  }

  lemma DbCallIsNoQuery<J(!new)>(convert: string -> Option<J>, rest: string)
    requires CallsDatabase(rest)
    ensures forall query :: ParseDbCall(convert, rest) != Ok(RunQuery(query))
  {
    hide CallsDatabase, CloseParen, ParseArguments, Trim;
  }

  lemma FirstIsGood(q: Query<string>)
    requires GoodCalls(q.calls)
    ensures q.calls != [] && '(' !in q.calls[0].name
  {
    assert GoodCall(q.calls[0]);
  }

  // ----- calls on the database

  function DbCallText(call: Call<string>): string {
    "db." + CallText(call)
  }

  lemma DbCallClean(call: Call<string>)
    requires NoComments(DbCallText(call))
    ensures Clean(DbCallText(call)) == DbCallText(call)
  {
    hide Strip, Join, NoComments;
    var text := DbCallText(call);
    NoCommentsIff(text);
    EndsLike("(", Join(call.args, ",") + ")");
    EndsLike(call.name, "(" + (Join(call.args, ",") + ")"));
    EndsLike("db.", CallText(call));
    CleanedIsTrimmed(text);
  }

  lemma ParseGoodDbCall<J>(convert: string -> Option<J>, call: Call<string>)
    requires GoodCall(call) && IsDbMethod(Trim(call.name))
    ensures CallsDatabase(CallText(call))
    ensures ParseDbCall(convert, CallText(call)) ==
      match ConvertAll(convert, Tight(call.args))
      case Err(e) => Err(e)
      case Ok(args) => Ok(DbCall(Call(Trim(call.name), args)))
  {
    hide Trim, CloseParen, Nested, Arguments, IsArgument, IsDbMethod, Tight;
    var body := Join(call.args, ",");
    assert CallText(call) == call.name + ['('] + (body + ")" + "");
    FindAfter(call.name, '(', body + ")" + "");
    CloseAfterNested(body, "");
    ArgumentsOfJoin(call.args);
    NothingToTrim();
    SliceCall(call.name, body, "");
  }

  /** A printed call on the database is read back as that call. */
  lemma DbCallRoundTrip<J>(convert: string -> Option<J>, call: Call<string>)
    requires GoodCall(call) && IsDbMethod(Trim(call.name)) && NoComments(DbCallText(call))
    ensures ParseCommand(convert, DbCallText(call)) ==
      match ConvertAll(convert, Tight(call.args))
      case Err(e) => Err(e)
      case Ok(args) => Ok(DbCall(Call(Trim(call.name), args)))
  {
    hide Clean, Strip, CallText, ParseQuery, CallsDatabase, ParseDbCall, GoodCall, IsDbMethod, ParseShow, Tight,
         NoComments;
    var text := DbCallText(call);
    DbCallClean(call);
    PrefixSplit("db.", CallText(call));
    ParseGoodDbCall(convert, call);
    CallNotEmpty(call);
    assert text[..3] == "db." && text[0] == 'd' && text[2] == '.';
  }

  /** The methods of the database are these eight. */
  lemma DbMethodsAre(name: string)
    ensures IsDbMethod("getName") && IsDbMethod("getCollectionNames") && IsDbMethod("getCollectionInfos")
    ensures IsDbMethod("stats") && IsDbMethod("version") && IsDbMethod("serverStatus")
    ensures IsDbMethod("runCommand") && IsDbMethod("adminCommand")
    ensures IsDbMethod(name) ==> name in ["getName", "getCollectionNames", "getCollectionInfos", "stats", "version",
                                          "serverStatus", "runCommand", "adminCommand"]
  {
  }

  /** A call on the database of any other name is no command: it has no collection. */
  lemma OtherDbCall<J>(convert: string -> Option<J>, call: Call<string>)
    requires '(' !in call.name && !IsDbMethod(Trim(call.name)) && '.' !in CallText(call)
    requires !("getCollection(" <= CallText(call)) && NoComments(DbCallText(call))
    ensures ParseCommand(convert, DbCallText(call)) == Err(MissingCollection)
  {
    hide Clean, CallText, Trim, IsDbMethod, NoComments, ParseCalls, CloseParen, TrimQuotes;
    var text := CallText(call);
    DbCallClean(call);
    PrefixSplit("db.", text);
    CallNotEmpty(call);
    HeadOfCall(call);
    assert DbCallText(call)[0] == 'd' && DbCallText(call)[2] == '.';
    assert Clean(DbCallText(call)) == DbCallText(call);
    assert Find(text, '.').None? by { NoDotFound(text); }
  }

  lemma NoDotFound(s: string)
    requires '.' !in s
    ensures Find(s, '.').None?
  {
  }

  lemma HeadOfCall(call: Call<string>)
    requires '(' !in call.name && !IsDbMethod(Trim(call.name))
    ensures !CallsDatabase(CallText(call))
  {
    hide Trim, IsDbMethod;
    var more := Join(call.args, ",") + ")";
    FindAfter(call.name, '(', more);
    assert CallText(call) == call.name + ['('] + more;
    assert (call.name + ['('] + more)[..|call.name|] == call.name;
  }

  lemma CallNotEmpty(call: Call<string>)
    ensures CallText(call) != ""
  {
  }

  // ----- names in quotes

  /** Inside double quotes anything but quotes and backslashes can name a collection or a database. */
  predicate GoodName(name: string) {
    name != "" && forall i | 0 <= i < |name| :: !IsQuote(name[i]) && name[i] != '\\'
  }

  function InQuotes(name: string): string {
    "\"" + name + "\""
  }

  lemma QuotedNameText(name: string)
    requires GoodName(name)
    ensures TrimQuotes(InQuotes(name)) == name && Trim(InQuotes(name)) == InQuotes(name)
  {
    var s := InQuotes(name);
    var rest := name + "\"";
    assert s[1..] == rest;
    assert rest[..|rest| - 1] == name;
    TrimmedStays(s);
    assert TrimQuotes(rest) == TrimQuotes(name) && TrimQuotes(name) == name;
  }

  lemma QuotedNameNested(name: string)
    requires GoodName(name)
    ensures Nested(InQuotes(name))
  {
    JsonSyntax.PlainCloses('"', name);
    JsonScan.QuietLit(AllBrackets, ')', '"', name);
    assert JsonScan.InLiteral('"', name) == InQuotes(name);
  }

  /** The parenthesis behind a quoted name is found, whatever the name contains. */
  lemma QuotedNameCloses(name: string, after: string)
    requires GoodName(name)
    ensures var s := InQuotes(name) + ")" + after;
      && CloseParen(s) == Some(|InQuotes(name)|)
      && s[..|InQuotes(name)|] == InQuotes(name) && s[|InQuotes(name)| + 1..] == after
  {
    hide Nested, CloseParen;
    QuotedNameNested(name);
    CloseAfterNested(InQuotes(name), after);
  }

  /** A collection whose name is not a plain identifier: dots, slashes and brackets included. */
  lemma ParseQuotedCollection(name: string, rest: string)
    requires GoodName(name)
    ensures ParseCollection("getCollection(" + (InQuotes(name) + ")" + ("." + rest))) == Ok(Head(name, rest))
  {
    hide CloseParen, TrimQuotes, Trim, TrimStart, InQuotes, GoodName;
    var after := InQuotes(name) + ")" + ("." + rest);
    PrefixSplit("getCollection(", after);
    QuotedNameCloses(name, "." + rest);
    QuotedNameText(name);
    NotEmptyName(name);
    DotStays(rest);
  }

  lemma NotEmptyName(name: string)
    requires GoodName(name)
    ensures name != ""
  {
  }

  function QuotedQueryText(q: Query<string>): string {
    "db." + ("getCollection(" + (InQuotes(q.collection) + ")" + ("." + CallsText(q.calls))))
  }

  lemma QuotedQueryClean(q: Query<string>)
    requires q.calls != [] && NoComments(QuotedQueryText(q))
    ensures Clean(QuotedQueryText(q)) == QuotedQueryText(q)
  {
    hide Strip, CallsText, Trim, TrimTerminators, InQuotes, NoComments;
    NoCommentsIff(QuotedQueryText(q));
    CallsEnd(q.calls);
    EndsLike(".", CallsText(q.calls));
    EndsLike(InQuotes(q.collection) + ")", "." + CallsText(q.calls));
    EndsLike("getCollection(", InQuotes(q.collection) + ")" + ("." + CallsText(q.calls)));
    EndsLike("db.", "getCollection(" + (InQuotes(q.collection) + ")" + ("." + CallsText(q.calls))));
    CleanedIsTrimmed(QuotedQueryText(q));
  }

  /** The same round trip for a collection addressed by `getCollection`, with any such name. */
  lemma ParseQuotedPrinted<J>(convert: string -> Option<J>, q: Query<string>)
    requires GoodName(q.collection) && GoodCalls(q.calls) && NoComments(QuotedQueryText(q))
    ensures ParseQuery(convert, QuotedQueryText(q)) == ConvertQuery(convert, Tidy(q))
  {
    hide Clean, CallsText, ParseCalls, ConvertCalls, ParseCollection, InQuotes, GoodName, NoComments, TidyCalls;
    QuotedQueryClean(q);
    PrefixSplit("db.", "getCollection(" + (InQuotes(q.collection) + ")" + ("." + CallsText(q.calls))));
    ParseQuotedCollection(q.collection, CallsText(q.calls));
    ParseGoodCalls(convert, q.calls);
  }

  // ----- another database for one command

  /** A name in quotes of either kind, or bare, that is read as it stands. */
  predicate NamesDatabase(quote: string, name: string) {
    && Quoting(quote) && name != "" && !IsQuote(name[0]) && !IsQuote(name[|name| - 1])
    && if quote == "" then Trimmed(name) && Nested(name) && QuoteFree(name) && !OpensComment(name)
       else LeavesOpen(quote[0], name)
  }

  function SiblingText(quote: string, database: string, rest: string): string {
    SIBLING + ((quote + database + quote) + (")." + rest))
  }

  lemma NameInParens(quote: string, name: string)
    requires NamesDatabase(quote, name)
    ensures var text := quote + name + quote; text != "" && Trimmed(text) && Nested(text)
  {
    hide Nested, LeavesOpen;
    if quote == "" {
      assert quote + name + quote == name;
    } else {
      JsonScan.QuietLit(AllBrackets, ')', quote[0], name);
      assert JsonScan.InLiteral(quote[0], name) == quote + name + quote;
      LiteralNested(quote[0], name);
    }
  }

  lemma LiteralNested(quote: char, body: string)
    requires JsonScan.Quiet(AllBrackets, ')', 0, JsonScan.InLiteral(quote, body))
    ensures Nested(JsonScan.InLiteral(quote, body))
  {
  }

  lemma SiblingStrip(quote: string, database: string, rest: string)
    requires NamesDatabase(quote, database) && NoComments("db." + rest)
    ensures NoComments(SiblingText(quote, database, rest))
  {
    hide Strip, NoComments, NamesDatabase;
    var name, tail := quote + database + quote, ")." + rest;
    RestStrip(rest);
    NameStrip(quote, database, tail);
    PlainPrefix(SIBLING, name + tail);
    NoCommentsIff(SiblingText(quote, database, rest));
  }

  lemma RestStrip(rest: string)
    requires NoComments("db." + rest)
    ensures Strip(")." + rest) == ")." + rest
  {
    hide Strip, NoComments;
    NoCommentsIff("db." + rest);
    PlainPrefix("db.", rest);
    assert ("db." + Strip(rest))[3..] == Strip(rest) && ("db." + rest)[3..] == rest;
    PlainPrefix(").", rest);
  }

  lemma NameStrip(quote: string, database: string, tail: string)
    requires NamesDatabase(quote, database) && tail != "" && tail[0] == ')'
    ensures Strip((quote + database + quote) + tail) == (quote + database + quote) + Strip(tail)
  {
    hide Strip, LeavesOpen, OpensComment, Nested;
    if quote == "" {
      assert quote + database + quote == database;
      QuoteFreePrefix(database, tail);
    } else {
      JsonScan.NoCommentLit(quote[0], database);
      assert JsonScan.InLiteral(quote[0], database) == quote + database + quote;
      LiteralStrip(quote + database + quote, tail);
    }
  }

  lemma LiteralStrip(literal: string, tail: string)
    requires JsonScan.NoComment(literal)
    ensures Strip(literal + tail) == literal + Strip(tail)
  {
  }

  lemma SiblingClean(quote: string, database: string, rest: string)
    requires NamesDatabase(quote, database) && NoComments("db." + rest)
    requires rest != "" && !IsTerminator(rest[|rest| - 1])
    ensures Clean(SiblingText(quote, database, rest)) == SiblingText(quote, database, rest)
  {
    hide Clean, NoComments, NamesDatabase;
    var name := quote + database + quote;
    SiblingStrip(quote, database, rest);
    EndsLike(").", rest);
    EndsLike(name, ")." + rest);
    HelperClean(SIBLING, name + (")." + rest));
  }

  lemma CloseThenDot(name: string, rest: string)
    ensures name + (")." + rest) == name + ")" + ("." + rest) && "db" + ("." + rest) == "db." + rest
    ensures var s := name + ")" + ("." + rest); s[..|name|] == name && s[|name| + 1..] == "." + rest
  {
  }

  /** A command aimed at another database is that database and the plain command. */
  lemma SiblingAims(quote: string, database: string, rest: string)
    requires NamesDatabase(quote, database) && NoComments("db." + rest)
    requires rest != "" && !IsTerminator(rest[|rest| - 1])
    ensures SplitSibling(SiblingText(quote, database, rest)) == Ok(Aimed(Some(database), "db." + rest))
  {
    hide Clean, CloseParen, TrimQuotes, Trim, TrimStart, NoComments, Nested, LeavesOpen;
    var name := quote + database + quote;
    SiblingClean(quote, database, rest);
    PrefixSplit(SIBLING, name + (")." + rest));
    CloseThenDot(name, rest);
    NameInParens(quote, database);
    CloseAfterNested(name, "." + rest);
    TrimmedStays(name);
    QuotingGoes(quote, database);
    DotStays(rest);
  }

  /** A printed query aimed at another database is run there as that query. */
  lemma SiblingQuery<J(!new)>(convert: string -> Option<J>, quote: string, database: string, q: Query<string>)
    requires NamesDatabase(quote, database)
    requires PlainName(q.collection) && !DbHead(q.collection) && GoodCalls(q.calls) && NoComments(QueryText(q))
    ensures var aimed := SplitSibling(SiblingText(quote, database, q.collection + ("." + CallsText(q.calls))));
      && aimed.Ok? && aimed.value.database == Some(database)
      && ParseCommand(convert, aimed.value.command) == AsCommand(ConvertQuery(convert, Tidy(q)))
  {
    hide ParseCommand, SplitSibling, CallsText, NoComments, GoodCalls, PlainName, DbHead, ConvertQuery, Tidy,
         NamesDatabase;
    FirstIsGood(q);
    CallsEnd(q.calls);
    EndsLike(".", CallsText(q.calls));
    EndsLike(q.collection, "." + CallsText(q.calls));
    SiblingAims(quote, database, q.collection + ("." + CallsText(q.calls)));
    QueryIsCommand(convert, q);
  }

  // ----- a name that is not run as a query

  /** A collection name that begins like `db.runCommand(`. */
  lemma CommandInName<J(!new)>(convert: string -> Option<J>)
    ensures var q := Query("runCommand(x", [Call("find", [])]);
      forall query :: ParseCommand(convert, QueryText(q)) != Ok(RunQuery(query))
  {
    hide ParseCommand, NoComments, GoodArgs, QueryText, PlainName, DbHead;
    var q := Query("runCommand(x", [Call("find", [])]);
    NoArgsGood("find");
    assert GoodCall(q.calls[0]);
    CommandText();
    CommandHead();
    QueryIsCommand(convert, q);
  }

  lemma CommandText()
    ensures NoComments(QueryText(Query("runCommand(x", [Call("find", [])])))
  {
    hide NoComments, CallText;
    NoArgsGood("find");
    var calls: seq<Call<string>> := [Call("find", [])];
    assert CallsText(calls) == CallText(calls[0]) == "find" + "()";
    assert "find" + "()" == "find()";
    PlainHasNoComments("db." + ("runCommand(x" + ("." + "find()")));
  }

  lemma CommandHead()
    ensures DbHead("runCommand(x") && PlainName("runCommand(x")
  {
    hide Trim, Find;
    var name := "runCommand(x";
    FindAfter("runCommand", '(', "x");
    assert "runCommand" + ['('] + "x" == name;
    assert name[..10] == "runCommand";
    TrimmedStays("runCommand");
    assert name[0] != "getCollection("[0];
  }
}
