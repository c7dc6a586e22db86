/** Printed queries whose arguments are relaxed JSON trees: the parser gives back the collection, the
    method names and, for each argument, what the JSON reader makes of its strict form. */
module ShellTrees {
  import opened Text
  import opened JsonSyntax
  import opened Brackets
  import opened RelaxJson
  import opened RelaxMeaning
  import opened RelaxTree
  import opened JsonScan
  import opened ShellQuery
  import opened ShellRoundTrip
  import JsComments

  /** A value with the space written around it. */
  datatype Arg = Arg(before: string, value: Json, after: string)

  /** `space` stands in the parentheses of a call without arguments. */
  datatype TreeCall = TreeCall(name: string, space: string, args: seq<Arg>)

  datatype TreeQuery = TreeQuery(collection: string, calls: seq<TreeCall>)

  function ArgumentText(arg: Arg): string {
    arg.before + (Render(arg.value) + arg.after)
  }

  function ArgTexts(args: seq<Arg>): seq<string> {
    if args == [] then [] else [ArgumentText(args[0])] + ArgTexts(args[1..])
  }

  function InParens(call: TreeCall): seq<string> {
    if call.args != [] then ArgTexts(call.args) else if call.space == "" then [] else [call.space]
  }

  function CallOf(call: TreeCall): Call<string> {
    Call(call.name, InParens(call))
  }

  function CallTexts(calls: seq<TreeCall>): seq<Call<string>> {
    if calls == [] then [] else [CallOf(calls[0])] + CallTexts(calls[1..])
  }

  function TextQuery(q: TreeQuery): Query<string> {
    Query(q.collection, CallTexts(q.calls))
  }

  /** The command as it is typed. */
  function Typed(q: TreeQuery): string {
    QueryText(TextQuery(q))
  }

  predicate WfArgument(u: Unicode, arg: Arg) {
    IsSpace(arg.before) && Wf(u, arg.value) && IsSpace(arg.after)
  }

  predicate WfArguments(u: Unicode, args: seq<Arg>) {
    forall i | 0 <= i < |args| :: WfArgument(u, args[i])
  }

  predicate WfCall(u: Unicode, call: TreeCall) {
    '(' !in call.name && IsSpace(call.space) && WfArguments(u, call.args)
  }

  predicate WfCalls(u: Unicode, calls: seq<TreeCall>) {
    forall i | 0 <= i < |calls| :: WfCall(u, calls[i])
  }

  /** Every literal in the arguments closes where its tree says, so that the scanners find every call's
      end and every argument. */
  predicate ClosedCalls(calls: seq<TreeCall>) {
    forall i | 0 <= i < |calls| :: ClosedArgs(calls[i].args)
  }

  predicate ClosedArgs(args: seq<Arg>) {
    forall i | 0 <= i < |args| :: Closed(args[i].value)
  }

  // ----- what the trees are read as

  function ReadTrees<J>(json: string -> Option<J>, args: seq<Arg>): Result<seq<J>, ShellError> {
    if args == [] then Ok([])
    else
      match json(Render(Strict(args[0].value)))
      case None => Err(InvalidArgument)
      case Some(value) =>
        match ReadTrees(json, args[1..])
        case Err(e) => Err(e)
        case Ok(values) => Ok([value] + values)
  }

  function ReadTreeCalls<J>(json: string -> Option<J>, calls: seq<TreeCall>): Result<seq<Call<J>>, ShellError> {
    if calls == [] then Ok([])
    else
      match ReadTrees(json, calls[0].args)
      case Err(e) => Err(e)
      case Ok(args) =>
        match ReadTreeCalls(json, calls[1..])
        case Err(e) => Err(e)
        case Ok(more) => Ok([Call(Trim(calls[0].name), args)] + more)
  }

  function ReadTreeQuery<J>(json: string -> Option<J>, q: TreeQuery): Result<Query<J>, ShellError> {
    match ReadTreeCalls(json, q.calls)
    case Err(e) => Err(e)
    case Ok(calls) => Ok(Query(q.collection, calls))
  }

  // ----- one argument

  lemma CtorEnd(name: string, gap: string, body: string)
    ensures var s := name + (gap + ("(" + (body + ")"))); s != "" && s[|s| - 1] == ')'
  {
    EndsLike("(", body + ")");
    EndsLike(gap, "(" + (body + ")"));
    EndsLike(name, gap + ("(" + (body + ")")));
  }

  lemma ValueEnd(u: Unicode, v: Json)
    requires Coherent(u) && Wf(u, v)
    ensures var s := Render(v); s != "" && !IsWhitespace(s[|s| - 1])
  {
    hide RenderItems, RenderMembers, UnitsText, IsNumber, IsCtorName, WfArg;
    match v
    case Str(_) =>
    case Word(_) =>
    case Num(number) => NumberIsText(number);
    case Arr(items) => EndsLike("[", RenderItems(items) + "]");
    case Obj(members) => EndsLike("{", RenderMembers(members) + "}");
    case Ctor(name, gap, before, arg, after) => CtorEnd(name, gap, before + ArgText(arg) + after);
  }

  lemma TrimArgument(u: Unicode, arg: Arg)
    requires Coherent(u) && WfArgument(u, arg)
    ensures Trim(ArgumentText(arg)) == Render(arg.value)
  {
    hide Trim, Render, Coherent;
    var text := Render(arg.value);
    ValueHead(u, arg.value);
    ValueEnd(u, arg.value);
    SpaceIsBlank(arg.before);
    SpaceIsBlank(arg.after);
    TrimPadded(arg.before, text, arg.after);
    assert arg.before + text + arg.after == arg.before + (text + arg.after);
  }

  /** The reader of arguments sees the strict form. */
  lemma ReadArgument<J>(u: Unicode, json: string -> Option<J>, arg: Arg)
    requires Coherent(u) && WfArgument(u, arg)
    ensures Reader(u, json)(ArgumentText(arg)) == json(Render(Strict(arg.value)))
  {
    hide Trim, Render, Relax, Strict, Coherent;
    TrimArgument(u, arg);
    ReaderReads(u, json, ArgumentText(arg));
    RelaxGivesStrict(u, "", arg.value, "");
    var text, strict := Render(arg.value), Render(Strict(arg.value));
    assert "" + (text + "") == text && "" + (strict + "") == strict;
  }

  lemma {:induction false} ReadArguments<J>(u: Unicode, json: string -> Option<J>, args: seq<Arg>)
    requires Coherent(u) && WfArguments(u, args)
    ensures ConvertAll(Reader(u, json), ArgTexts(args)) == ReadTrees(json, args)
  {
    hide Reader, Coherent, WfArgument, ArgumentText;
    if args != [] {
      ReadArgument(u, json, args[0]);
      ReadArguments(u, json, args[1..]);
    }
  }

  // ----- the space inside the parentheses

  /** The arguments without the space before the first and behind the last one. */
  function TightTrees(args: seq<Arg>): (r: seq<Arg>)
    requires args != []
    ensures |r| == |args|
  {
    var first := args[0 := args[0].(before := "")];
    first[|args| - 1 := first[|args| - 1].(after := "")]
  }

  lemma TightRead<J>(json: string -> Option<J>, args: seq<Arg>)
    requires args != []
    ensures ReadTrees(json, TightTrees(args)) == ReadTrees(json, args)
  {
    SameValues(json, args, TightTrees(args));
  }

  lemma {:induction false} SameValues<J>(json: string -> Option<J>, a: seq<Arg>, b: seq<Arg>)
    requires |a| == |b| && forall i | 0 <= i < |a| :: a[i].value == b[i].value
    ensures ReadTrees(json, a) == ReadTrees(json, b)
  {
    hide Render, Strict;
    if a != [] {
      SameValues(json, a[1..], b[1..]);
    }
  }

  lemma TightWf(u: Unicode, args: seq<Arg>)
    requires args != [] && WfArguments(u, args)
    ensures WfArguments(u, TightTrees(args))
  {
    hide Wf;
    forall i | 0 <= i < |args| ensures WfArgument(u, TightTrees(args)[i]) {
      assert WfArgument(u, args[i]);
    }
  }

  lemma SpaceGoes(before: string, core: string, after: string)
    requires IsSpace(before) && IsSpace(after)
    requires core != "" && !IsWhitespace(core[0]) && !IsWhitespace(core[|core| - 1])
    ensures TrimStart(before + (core + after)) == "" + (core + after)
    ensures TrimEnd(before + (core + after)) == before + (core + "")
  {
    hide TrimStart, TrimEnd, IsSpace;
    SpaceBefore(before, core + after);
    SpaceBehind(before + core, after) by { EndsLike(before, core); }
    JoinsSame(before, core, after);
  }

  lemma JoinsSame(a: string, b: string, c: string)
    ensures a + b + c == a + (b + c) && "" + (b + c) == b + c && b + "" == b
  {
  }

  lemma SpaceBefore(before: string, rest: string)
    requires IsSpace(before) && rest != "" && !IsWhitespace(rest[0])
    ensures TrimStart(before + rest) == rest
  {
    hide TrimStart;
    SpaceIsBlank(before);
    TrimStartPadded(before, rest);
  }

  lemma SpaceBehind(rest: string, after: string)
    requires IsSpace(after) && rest != "" && !IsWhitespace(rest[|rest| - 1])
    ensures TrimEnd(rest + after) == rest
  {
    hide TrimEnd;
    SpaceIsBlank(after);
    TrimEndPadded(rest, after);
  }

  lemma TrimArgStart(u: Unicode, arg: Arg)
    requires Coherent(u) && WfArgument(u, arg)
    ensures TrimStart(ArgumentText(arg)) == ArgumentText(arg.(before := ""))
    ensures TrimEnd(ArgumentText(arg)) == ArgumentText(arg.(after := ""))
    ensures !IsBlank(ArgumentText(arg))
  {
    hide TrimStart, TrimEnd, Render, Wf, Coherent;
    var core := Render(arg.value);
    ValueHead(u, arg.value);
    ValueEnd(u, arg.value);
    SpaceGoes(arg.before, core, arg.after);
    assert (arg.before + (core + arg.after))[|arg.before|] == core[0];
  }

  lemma {:induction false} ArgTextsUpdate(args: seq<Arg>, i: nat, arg: Arg)
    requires i < |args|
    ensures |ArgTexts(args)| == |args| && ArgTexts(args[i := arg]) == ArgTexts(args)[i := ArgumentText(arg)]
  {
    hide ArgumentText;
    ArgTextsAre(args);
    ArgTextsAre(args[i := arg]);
  }

  lemma TightTexts(u: Unicode, args: seq<Arg>)
    requires Coherent(u) && WfArguments(u, args) && args != []
    ensures TrimLast(TrimFirst(ArgTexts(args))) == ArgTexts(TightTrees(args))
  {
    hide ArgumentText, Coherent, WfArgument, TrimStart, TrimEnd, ArgTexts;
    ArgTextsAre(args);
    var bare := args[0].(before := "");
    var first := args[0 := bare];
    ArgTextsUpdate(args, 0, bare);
    TrimArgStart(u, args[0]);
    BareWf(u, args[0]);
    var n := |args| - 1;
    ArgTextsAre(first);
    TrimArgStart(u, first[n]);
    ArgTextsUpdate(first, n, first[n].(after := ""));
  }

  lemma BareWf(u: Unicode, arg: Arg)
    requires WfArgument(u, arg)
    ensures WfArgument(u, arg.(before := ""))
  {
    hide Wf;
  }

  lemma {:induction false} TrimBlank(s: string)
    ensures Trim(s) == "" <==> IsBlank(s)
  {
    if s != "" && IsWhitespace(s[0]) {
      TrimBlank(s[1..]);
      assert IsBlank(s) <==> IsBlank(s[1..]) by { assert s == [s[0]] + s[1..]; }
    } else if s != "" {
      assert s[0] in s;
      TrimEndKeeps(s, 0);
    }
  }

  lemma {:induction false} TrimEndKeeps(s: string, i: nat)
    requires i < |s| && !IsWhitespace(s[i])
    ensures |TrimEnd(s)| > i
  {
    if IsWhitespace(s[|s| - 1]) {
      TrimEndKeeps(s[..|s| - 1], i);
    }
  }

  lemma JoinInk(texts: seq<string>)
    requires texts != [] && !IsBlank(texts[0])
    ensures !IsBlank(Join(texts, ","))
  {
    var c :| c in texts[0] && !IsWhitespace(c);
    assert c in Join(texts, ",");
  }

  /** What the parser takes as the arguments of a call are its trees, without the space around them. */
  lemma TightCall(u: Unicode, call: TreeCall)
    requires Coherent(u) && WfCall(u, call)
    ensures Tight(InParens(call)) == if call.args == [] then [] else ArgTexts(TightTrees(call.args))
  {
    hide ArgumentText, Coherent, WfArgument, Trim, IsBlank;
    var text := Join(InParens(call), ",");
    TrimBlank(text);
    if call.args == [] {
      SpaceIsBlank(call.space);
      assert text == call.space;
    } else {
      TrimArgStart(u, call.args[0]);
      ArgTextsAre(call.args);
      JoinInk(ArgTexts(call.args));
      TightTexts(u, call.args);
    }
  }

  lemma ReadOneCall<J>(u: Unicode, json: string -> Option<J>, call: TreeCall)
    requires Coherent(u) && WfCall(u, call)
    ensures ConvertAll(Reader(u, json), Tight(CallOf(call).args)) == ReadTrees(json, call.args)
  {
    hide Reader, Coherent, Tight, ArgTexts, WfArguments;
    TightCall(u, call);
    if call.args != [] {
      TightWf(u, call.args);
      ReadArguments(u, json, TightTrees(call.args));
      TightRead(json, call.args);
    }
  }

  lemma {:induction false} ReadCalls<J>(u: Unicode, json: string -> Option<J>, calls: seq<TreeCall>)
    requires Coherent(u) && WfCalls(u, calls)
    ensures ConvertCalls(Reader(u, json), TidyCalls(CallTexts(calls))) == ReadTreeCalls(json, calls)
  {
    hide Reader, Coherent, ConvertAll, ReadTrees, InParens, WfCall, Tight, Trim;
    if calls != [] {
      ReadOneCall(u, json, calls[0]);
      ReadCalls(u, json, calls[1..]);
      var tidy := TidyCalls(CallTexts(calls));
      assert CallTexts(calls)[1..] == CallTexts(calls[1..]);
      assert tidy[1..] == TidyCalls(CallTexts(calls[1..]));
    }
  }

  // ----- the texts are well formed

  lemma QuietComma()
    ensures Quiet(AllBrackets, ')', 0, ",")
  {
    forall d: nat ensures Run(AllBrackets, Level(d), ",") == Level(d) && Safe(AllBrackets, ')', Level(d), ",") {
      CharSteps(AllBrackets, ')', Level(d), ',');
    }
  }

  lemma NoCommentComma()
    ensures NoComment(",")
  {
    NoCommentChar(',');
  }

  /** Joined by commas, calm texts are still well nested and without a comment. */
  lemma {:induction false} JoinCalm(args: seq<string>)
    requires forall i | 0 <= i < |args| :: Calm(0, args[i])
    ensures var text := Join(args, ","); Quiet(AllBrackets, ')', 0, text) && NoComment(text)
  {
    hide Quiet, NoComment;
    if args == [] {
      CalmNothing();
    } else if |args| > 1 {
      var rest := Join(args[1..], ",");
      JoinCalm(args[1..]);
      QuietComma();
      NoCommentComma();
      QuietConcat(AllBrackets, ')', 0, args[0], ",");
      QuietConcat(AllBrackets, ')', 0, args[0] + ",", rest);
      NoCommentConcat(args[0], ",");
      NoCommentConcat(args[0] + ",", rest);
    }
  }

  lemma {:induction false} ArgTextsAre(args: seq<Arg>)
    ensures |ArgTexts(args)| == |args| && forall i | 0 <= i < |args| :: ArgTexts(args)[i] == ArgumentText(args[i])
  {
    if args != [] {
      ArgTextsAre(args[1..]);
    }
  }

  lemma ArgsAreGood(u: Unicode, args: seq<Arg>)
    requires Coherent(u) && WfArguments(u, args) && ClosedArgs(args)
    ensures GoodArgs(ArgTexts(args)) && NoComment(Join(ArgTexts(args), ","))
  {
    hide ArgumentText, Coherent, Calm, NoComment, Run, Safe;
    var texts := ArgTexts(args);
    ArgTextsAre(args);
    forall i | 0 <= i < |args| ensures IsArgument(texts[i]) && Calm(0, texts[i]) {
      CalmArgument(u, args[i]);
    }
    JoinCalm(texts);
  }

  lemma CalmArgument(u: Unicode, arg: Arg)
    requires Coherent(u) && WfArgument(u, arg) && Closed(arg.value)
    ensures IsArgument(ArgumentText(arg)) && Calm(0, ArgumentText(arg))
  {
    ValueIsArgument(u, arg.before, arg.value, arg.after);
  }

  lemma SpaceIsGood(space: string)
    requires IsSpace(space)
    ensures GoodArgs([space]) && NoComment(space) && GoodArgs([]) && NoComment("")
  {
    CalmSpace(space);
    CalmNothing();
    JoinCalm([space]);
    assert Nested("");
  }

  /** What stands in the parentheses of a call is good for the round trip and holds no comment. */
  lemma ParensAreGood(u: Unicode, call: TreeCall)
    requires Coherent(u) && WfCall(u, call) && ClosedArgs(call.args)
    ensures GoodArgs(InParens(call)) && NoComment(Join(InParens(call), ",") + ")")
  {
    hide NoComment, GoodArgs, WfArguments, ClosedArgs, Coherent, ArgTexts;
    var text := Join(InParens(call), ",");
    if call.args != [] {
      ArgsAreGood(u, call.args);
    } else {
      SpaceIsGood(call.space);
    }
    NoCommentChar(')');
    NoCommentConcat(text, ")");
  }

  lemma {:induction false} CallsAreGood(u: Unicode, calls: seq<TreeCall>)
    requires Coherent(u) && WfCalls(u, calls) && ClosedCalls(calls)
    ensures var texts := CallTexts(calls);
      |texts| == |calls| && forall i | 0 <= i < |texts| :: texts[i] == CallOf(calls[i]) && GoodCall(texts[i])
  {
    hide GoodArgs, InParens, WfArguments, ClosedArgs, Coherent;
    if calls != [] {
      assert WfCall(u, calls[0]) && ClosedArgs(calls[0].args);
      ParensAreGood(u, calls[0]);
      CallsAreGood(u, calls[1..]);
    }
  }

  // ----- which names put a comment into the command

  predicate QuoteFreeNames(q: TreeQuery) {
    JsComments.QuoteFree(q.collection) && forall i | 0 <= i < |q.calls| :: JsComments.QuoteFree(q.calls[i].name)
  }

  predicate OpenerInNames(calls: seq<TreeCall>) {
    exists i | 0 <= i < |calls| :: JsComments.OpensComment(calls[i].name)
  }

  lemma OpenerFirst(calls: seq<TreeCall>)
    requires calls != []
    ensures OpenerInNames(calls) <==> JsComments.OpensComment(calls[0].name) || OpenerInNames(calls[1..])
  {
    if OpenerInNames(calls[1..]) {
      var i :| 0 <= i < |calls| - 1 && JsComments.OpensComment(calls[1..][i].name);
      assert calls[i + 1] == calls[1..][i];
    }
    if OpenerInNames(calls) && !JsComments.OpensComment(calls[0].name) {
      var i :| 0 <= i < |calls| && JsComments.OpensComment(calls[i].name);
      assert calls[1..][i - 1] == calls[i];
    }
  }

  /** A name in front of text that the stripper leaves alone as far as `inside` goes. */
  lemma NameStrip(name: string, inside: string, rest: string)
    requires JsComments.QuoteFree(name) && NoComment(inside)
    ensures var s := name + ("(" + (inside + rest));
      JsComments.Strip(s) == s <==> !JsComments.OpensComment(name) && JsComments.Strip(rest) == rest
  {
    hide JsComments.Strip, NoComment, JsComments.OpensComment;
    var tail := "(" + (inside + rest);
    if JsComments.OpensComment(name) {
      JsComments.QuoteFreeComment(name, tail);
    } else {
      JsComments.QuoteFreePrefix(name, tail);
      JsComments.PlainHead('(', inside + rest);
      NoCommentTail(inside, rest);
      SameTail(name, "(", inside, rest, JsComments.Strip(rest));
    }
  }

  lemma NoCommentTail(inside: string, rest: string)
    requires NoComment(inside)
    ensures JsComments.Strip(inside + rest) == inside + JsComments.Strip(rest)
  {
  }

  lemma SameTail(a: string, b: string, c: string, x: string, y: string)
    ensures a + (b + (c + x)) == a + (b + (c + y)) <==> x == y
  {
    var s, t := a + (b + (c + x)), a + (b + (c + y));
    assert s[|a| + |b| + |c|..] == x && t[|a| + |b| + |c|..] == y;
  }

  lemma SameRest(a: string, x: string, y: string)
    ensures a + x == a + y <==> x == y
  {
    assert (a + x)[|a|..] == x && (a + y)[|a|..] == y;
  }

  lemma CallTextParts(call: TreeCall, more: string)
    ensures ShellRoundTrip.CallText(CallOf(call)) + more
      == call.name + ("(" + ((Join(InParens(call), ",") + ")") + more))
  {
    hide InParens;
  }

  function MoreText(calls: seq<TreeCall>): string
    requires calls != []
  {
    if |calls| == 1 then "" else "." + CallsText(CallTexts(calls[1..]))
  }

  lemma FirstCallText(calls: seq<TreeCall>)
    requires calls != []
    ensures CallsText(CallTexts(calls)) == ShellRoundTrip.CallText(CallOf(calls[0])) + MoreText(calls)
  {
    hide ShellRoundTrip.CallText, InParens;
    CallTextsFirst(calls);
    var first := ShellRoundTrip.CallText(CallOf(calls[0]));
    assert first + "" == first;
  }

  lemma MoreStrip(calls: seq<TreeCall>)
    requires calls != []
    requires |calls| > 1 || CallsText(CallTexts(calls[1..])) == ""
    ensures var s := CallsText(CallTexts(calls[1..]));
      JsComments.Strip(MoreText(calls)) == MoreText(calls) <==> JsComments.Strip(s) == s
  {
    hide JsComments.Strip, CallsText, CallTexts;
    if |calls| > 1 {
      JsComments.PlainHead('.', CallsText(CallTexts(calls[1..])));
    }
  }

  lemma {:induction false} CallsStrip(u: Unicode, calls: seq<TreeCall>)
    requires Coherent(u) && WfCalls(u, calls) && ClosedCalls(calls)
    requires forall i | 0 <= i < |calls| :: JsComments.QuoteFree(calls[i].name)
    ensures var s := CallsText(CallTexts(calls)); JsComments.Strip(s) == s <==> !OpenerInNames(calls)
  {
    hide JsComments.Strip, NoComment, OpenerInNames, WfCall, ClosedArgs, Coherent, InParens,
         ShellRoundTrip.CallText, CallsText, MoreText, JsComments.QuoteFree, JsComments.OpensComment, CallTexts;
    if calls == [] {
      NoCalls();
    } else {
      assert WfCall(u, calls[0]) && ClosedArgs(calls[0].args);
      ParensAreGood(u, calls[0]);
      CallTextParts(calls[0], MoreText(calls));
      NameStrip(calls[0].name, Join(InParens(calls[0]), ",") + ")", MoreText(calls));
      OpenerFirst(calls);
      CallsStrip(u, calls[1..]);
      FirstCallText(calls);
      NoCalls();
      MoreStrip(calls);
    }
  }

  lemma NoCalls()
    ensures CallsText(CallTexts([])) == "" && JsComments.Strip("") == "" && !OpenerInNames([])
  {
  }

  lemma CallTextsFirst(calls: seq<TreeCall>)
    requires calls != []
    ensures var texts := CallTexts(calls);
      |texts| == |calls| && texts[0] == CallOf(calls[0]) && texts[1..] == CallTexts(calls[1..])
  {
    hide InParens;
    CallTextsLength(calls);
  }

  lemma {:induction false} CallTextsLength(calls: seq<TreeCall>)
    ensures |CallTexts(calls)| == |calls|
  {
    if calls != [] {
      CallTextsLength(calls[1..]);
    }
  }

  /** With names free of quotes, a typed command has a comment exactly when a slash followed by a slash
      or a star stands in one of them. */
  lemma NamesDecide(u: Unicode, q: TreeQuery)
    requires Coherent(u) && WfCalls(u, q.calls) && ClosedCalls(q.calls) && QuoteFreeNames(q)
    ensures JsComments.NoComments(Typed(q)) <==> !JsComments.OpensComment(q.collection) && !OpenerInNames(q.calls)
  {
    hide JsComments.Strip, OpenerInNames, WfCalls, ClosedCalls, Coherent, JsComments.NoComments,
         JsComments.OpensComment, CallsText, CallTexts;
    var calls := CallsText(CallTexts(q.calls));
    JsComments.NoCommentsIff(Typed(q));
    JsComments.PlainPrefix("db.", q.collection + ("." + calls));
    CallsStrip(u, q.calls);
    if JsComments.OpensComment(q.collection) {
      JsComments.QuoteFreeComment(q.collection, "." + calls);
      SameRest("db.", JsComments.Strip(q.collection + ("." + calls)), q.collection + ("." + calls));
    } else {
      JsComments.QuoteFreePrefix(q.collection, "." + calls);
      JsComments.PlainHead('.', calls);
      SameTail("db.", q.collection, ".", JsComments.Strip(calls), calls);
    }
  }

  // ----- the main result

  /** Parsing a typed query gives back exactly its collection and its calls, every argument as the
      JSON reader takes the strict form of its tree. Space around names and arguments does not matter. */
  lemma ParseUndoesPrinting<J>(u: Unicode, json: string -> Option<J>, q: TreeQuery)
    requires Coherent(u) && PlainName(q.collection) && WfCalls(u, q.calls) && GoodCalls(CallTexts(q.calls))
    requires JsComments.NoComments(Typed(q))
    ensures ParseQuery(Reader(u, json), Typed(q)) == ReadTreeQuery(json, q)
  {
    hide ParseQuery, Reader, QueryText, Coherent, CallTexts, ReadTreeCalls, ConvertCalls, TidyCalls, GoodCall;
    hide JsComments.NoComments, WfCalls, PlainName;
    ReadCalls(u, json, q.calls);
    ParsePrinted(Reader(u, json), TextQuery(q));
  }

  /** Where every literal closes where its tree says, the calls and arguments are found as written. */
  lemma ClosedIsGood(u: Unicode, calls: seq<TreeCall>)
    requires Coherent(u) && WfCalls(u, calls) && ClosedCalls(calls) && calls != []
    ensures GoodCalls(CallTexts(calls))
  {
    hide GoodCall, WfCalls, ClosedCalls, CallOf;
    CallsAreGood(u, calls);
  }
}
