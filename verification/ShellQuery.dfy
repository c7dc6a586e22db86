/** The MongoDB shell commands the console understands: the call-chain parser, the shell helpers and
    the commands around it. How an argument's text becomes a value is a parameter. */
module ShellQuery {
  import opened Text
  import opened JsonSyntax
  import opened Brackets
  import opened JsComments
  import opened RelaxJson

  datatype Call<J> = Call(name: string, args: seq<J>)

  datatype Query<J> = Query(collection: string, calls: seq<Call<J>>)

  datatype ShellError =
    | NotAQuery | MissingCollection | MissingCloseParen | EmptyName | NoMethodAfterCollection
    | MissingCall | UnbalancedArguments | InvalidArgument | TextAfterCall
    | UseWithoutName | UnsupportedShow | ShowWithoutArgument | NoCallAfterSibling

  /** Quotes of either kind taken off both ends. */
  function TrimQuotes(s: string): (r: string)
    ensures |r| <= |s|
  {
    if s == "" then ""
    else if IsQuote(s[0]) then TrimQuotes(s[1..])
    else if IsQuote(s[|s| - 1]) then TrimQuotes(s[..|s| - 1])
    else s
  }

  function ConvertAll<J>(convert: string -> Option<J>, parts: seq<string>): Result<seq<J>, ShellError> {
    if parts == [] then Ok([])
    else
      match convert(parts[0])
      case None => Err(InvalidArgument)
      case Some(value) =>
        match ConvertAll(convert, parts[1..])
        case Err(e) => Err(e)
        case Ok(values) => Ok([value] + values)
  }

  function ParseArguments<J>(convert: string -> Option<J>, text: string): Result<seq<J>, ShellError> {
    match Arguments(text)
    case Err(_) => Err(UnbalancedArguments)
    case Ok(parts) => ConvertAll(convert, parts)
  }

  /** `name(args)` at the start of the text, and what follows it. */
  datatype Parsed<J> = Parsed(call: Call<J>, after: string)

  function ParseCall<J>(convert: string -> Option<J>, rest: string): (r: Result<Parsed<J>, ShellError>)
    ensures r.Ok? ==> |r.value.after| < |rest|
  {
    var paren := Find(rest, '(');
    if paren.None? then Err(MissingCall)
    else
      var afterParen := rest[paren.value + 1..];
      var close := CloseParen(afterParen);
      if close.None? then Err(MissingCloseParen)
      else
        match ParseArguments(convert, afterParen[..close.value])
        case Err(e) => Err(e)
        case Ok(args) => Ok(Parsed(Call(Trim(rest[..paren.value]), args), TrimStart(afterParen[close.value + 1..])))
  }

  /** A chain of calls joined by dots; each turn works on a shorter rest. */
  function ParseCalls<J>(convert: string -> Option<J>, rest: string): Result<seq<Call<J>>, ShellError>
    decreases |rest|
  {
    match ParseCall(convert, rest)
    case Err(e) => Err(e)
    case Ok(Parsed(call, after)) =>
      if after == "" then Ok([call])
      else if after[0] != '.' then Err(TextAfterCall)
      else
        match ParseCalls(convert, after[1..])
        case Err(e) => Err(e)
        case Ok(calls) => Ok([call] + calls)
  }

  datatype Head = Head(collection: string, rest: string)

  /** The collection in front of the calls: up to the first dot, or inside `getCollection(...)`. */
  function ParseCollection(rest: string): Result<Head, ShellError> {
    if "getCollection(" <= rest then
      var after := rest[|"getCollection("|..];
      var close := CloseParen(after);
      if close.None? then Err(MissingCloseParen)
      else
        var name := TrimQuotes(Trim(after[..close.value]));
        var tail := TrimStart(after[close.value + 1..]);
        if name == "" then Err(EmptyName)
        else if tail == "" || tail[0] != '.' then Err(NoMethodAfterCollection)
        else Ok(Head(name, tail[1..]))
    else
      var dot := Find(rest, '.');
      if dot.None? then Err(MissingCollection) else Ok(Head(rest[..dot.value], rest[dot.value + 1..]))
  }

  function ParseCleaned<J>(convert: string -> Option<J>, query: string): Result<Query<J>, ShellError> {
    if !("db." <= query) then Err(NotAQuery)
    else
      match ParseCollection(query[3..])
      case Err(e) => Err(e)
      case Ok(Head(collection, rest)) =>
        match ParseCalls(convert, rest)
        case Err(e) => Err(e)
        case Ok(calls) => Ok(Query(collection, calls))
  }

  function ParseQuery<J>(convert: string -> Option<J>, text: string): Result<Query<J>, ShellError> {
    ParseCleaned(convert, Clean(text))
  }

  /** How the connector reads an argument: trimmed, relaxed, then parsed as JSON. */
  function Reader<J>(u: Unicode, json: string -> Option<J>): string -> Option<J> {
    (text: string) => json(Relax(u, Trim(text)))
  }

  // ----- the parser

  lemma ReaderReads<J>(u: Unicode, json: string -> Option<J>, text: string)
    ensures Reader(u, json)(text) == json(Relax(u, Trim(text)))
  {
  }

  /** The values read so far and the values of the other parts make up the whole list. */
  predicate ConvertedSoFar<J(==)>(convert: string -> Option<J>, parts: seq<string>, i: nat, args: seq<J>) {
    && i <= |parts|
    && var rest := ConvertAll(convert, parts[i..]);
       ConvertAll(convert, parts) == if rest.Ok? then Ok(args + rest.value) else rest
  }

  lemma ConvertStart<J>(convert: string -> Option<J>, parts: seq<string>)
    ensures ConvertedSoFar(convert, parts, 0, [])
  {
    hide ConvertAll;
    assert parts[0..] == parts;
    var all := ConvertAll(convert, parts);
    if all.Ok? {
      assert [] + all.value == all.value;
    }
  }

  lemma ConvertOneMore<J>(convert: string -> Option<J>, parts: seq<string>, i: nat, args: seq<J>)
    requires i < |parts| && ConvertedSoFar(convert, parts, i, args)
    ensures convert(parts[i]).None? ==> ConvertAll(convert, parts) == Err(InvalidArgument)
    ensures convert(parts[i]).Some? ==> ConvertedSoFar(convert, parts, i + 1, args + [convert(parts[i]).value])
  {
    assert parts[i..][1..] == parts[i + 1..];
    var more := ConvertAll(convert, parts[i + 1..]);
    if convert(parts[i]).Some? && more.Ok? {
      assert args + ([convert(parts[i]).value] + more.value) == args + [convert(parts[i]).value] + more.value;
    }
  }

  method ReadArguments<J>(u: Unicode, json: string -> Option<J>, text: string) returns (r: Result<seq<J>, ShellError>)
    ensures r == ParseArguments(Reader(u, json), text)
  {
    var split := SplitTopLevelArgs(text);
    if split.Err? {
      return Err(UnbalancedArguments);
    }
    r := ReadAll(u, json, split.value);
  }

  method ReadAll<J>(u: Unicode, json: string -> Option<J>, parts: seq<string>) returns (r: Result<seq<J>, ShellError>)
    ensures r == ConvertAll(Reader(u, json), parts)
  {
    hide Relax, Reader;
    var args: seq<J> := [];
    var i := 0;
    ConvertStart(Reader(u, json), parts);
    while i < |parts|
      invariant 0 <= i <= |parts| && ConvertedSoFar(Reader(u, json), parts, i, args)
    {
      ConvertOneMore(Reader(u, json), parts, i, args);
      ReaderReads(u, json, parts[i]);
      var relaxed := RelaxText(u, Trim(parts[i]));
      var value := json(relaxed);
      if value.None? {
        return Err(InvalidArgument);
      }
      args := args + [value.value];
      i := i + 1;
    }
    assert parts[i..] == [] && args + [] == args;
    return Ok(args);
  }

  method ReadCall<J>(u: Unicode, json: string -> Option<J>, rest: string) returns (r: Result<Parsed<J>, ShellError>)
    ensures r == ParseCall(Reader(u, json), rest)
  {
    var paren := Find(rest, '(');
    if paren.None? {
      return Err(MissingCall);
    }
    var name := Trim(rest[..paren.value]);
    var afterParen := rest[paren.value + 1..];
    var close := FindMatchingCloseParen(afterParen);
    if close.None? {
      return Err(MissingCloseParen);
    }
    var args := ReadArguments(u, json, afterParen[..close.value]);
    if args.Err? {
      return Err(args.error);
    }
    return Ok(Parsed(Call(name, args.value), TrimStart(afterParen[close.value + 1..])));
  }

  method ReadCollection(rest: string) returns (r: Result<Head, ShellError>)
    ensures r == ParseCollection(rest)
  {
    if "getCollection(" <= rest {
      var after := rest[|"getCollection("|..];
      var close := FindMatchingCloseParen(after);
      if close.None? {
        return Err(MissingCloseParen);
      }
      var name := TrimQuotes(Trim(after[..close.value]));
      if name == "" {
        return Err(EmptyName);
      }
      var tail := TrimStart(after[close.value + 1..]);
      if tail == "" || tail[0] != '.' {
        return Err(NoMethodAfterCollection);
      }
      return Ok(Head(name, tail[1..]));
    }
    var dot := Find(rest, '.');
    if dot.None? {
      return Err(MissingCollection);
    }
    return Ok(Head(rest[..dot.value], rest[dot.value + 1..]));
  }

  /** The calls found so far and the calls of the rest make up the whole chain. */
  predicate CallsSoFar<J(==)>(convert: string -> Option<J>, whole: string, calls: seq<Call<J>>, rest: string) {
    var more := ParseCalls(convert, rest);
    ParseCalls(convert, whole) == if more.Ok? then Ok(calls + more.value) else more
  }

  lemma CallsStart<J>(convert: string -> Option<J>, whole: string)
    ensures CallsSoFar(convert, whole, [], whole)
  {
    hide ParseCalls;
    var all := ParseCalls(convert, whole);
    if all.Ok? {
      assert [] + all.value == all.value;
    }
  }

  lemma OneMoreCall<J>(convert: string -> Option<J>, whole: string, calls: seq<Call<J>>, rest: string)
    requires CallsSoFar(convert, whole, calls, rest)
    ensures var r := ParseCall(convert, rest);
      && (r.Err? ==> ParseCalls(convert, whole) == Err(r.error))
      && (r.Ok? && r.value.after == "" ==> ParseCalls(convert, whole) == Ok(calls + [r.value.call]))
      && (r.Ok? && r.value.after != "" && r.value.after[0] != '.' ==> ParseCalls(convert, whole) == Err(TextAfterCall))
      && (r.Ok? && r.value.after != "" && r.value.after[0] == '.' ==>
            CallsSoFar(convert, whole, calls + [r.value.call], r.value.after[1..]))
  {
    hide ParseCall;
    var r := ParseCall(convert, rest);
    if r.Ok? && r.value.after != "" && r.value.after[0] == '.' {
      var more := ParseCalls(convert, r.value.after[1..]);
      if more.Ok? {
        assert calls + ([r.value.call] + more.value) == calls + [r.value.call] + more.value;
      }
    }
  }

  method ReadCalls<J>(u: Unicode, json: string -> Option<J>, text: string) returns (r: Result<seq<Call<J>>, ShellError>)
    ensures r == ParseCalls(Reader(u, json), text)
  {
    hide CallsSoFar, ParseCall, ParseCalls, Reader;
    var rest := text;
    var calls: seq<Call<J>> := [];
    CallsStart(Reader(u, json), text);
    while true
      invariant CallsSoFar(Reader(u, json), text, calls, rest)
      decreases |rest|
    {
      OneMoreCall(Reader(u, json), text, calls, rest);
      var parsed := ReadCall(u, json, rest);
      if parsed.Err? {
        return Err(parsed.error);
      }
      calls := calls + [parsed.value.call];
      var after := parsed.value.after;
      if after != "" && after[0] == '.' {
        rest := after[1..];
      } else if after == "" {
        return Ok(calls);
      } else {
        return Err(TextAfterCall);
      }
    }
  }

  method ParseShellQuery<J>(u: Unicode, json: string -> Option<J>, text: string)
    returns (r: Result<Query<J>, ShellError>)
    ensures r == ParseQuery(Reader(u, json), text)
  {
    var query := CleanCommand(text);
    if !("db." <= query) {
      return Err(NotAQuery);
    }
    var head := ReadCollection(query[3..]);
    if head.Err? {
      return Err(head.error);
    }
    var calls := ReadCalls(u, json, head.value.rest);
    if calls.Err? {
      return Err(calls.error);
    }
    return Ok(Query(head.value.collection, calls.value));
  }
}
