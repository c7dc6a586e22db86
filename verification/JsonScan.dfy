/** The text of a relaxed JSON tree seen by the scanners around it: it holds no comment, its brackets
    match, and its commas are all inside braces or square brackets. */
module JsonScan {
  import opened Text
  import opened JsonSyntax
  import opened Brackets
  import opened RelaxMeaning
  import opened RelaxTree
  import JsComments

  ghost predicate NoComment(s: string) {
    forall tail: string :: JsComments.Strip(s + tail) == s + JsComments.Strip(tail)
  }

  /** From every level of at least `lo`, scanning `s` comes back to that level, and `stop` is never
      seen outside strings and brackets. */
  ghost predicate Quiet(kind: Kind, stop: char, lo: nat, s: string) {
    forall d: nat | d >= lo :: Run(kind, Level(d), s) == Level(d) && Safe(kind, stop, Level(d), s)
  }

  /** `lo` is 0 for a whole value and 1 for what stands inside brackets. */
  ghost predicate Calm(lo: nat, s: string) {
    NoComment(s) && Quiet(AllBrackets, ')', lo, s) && Quiet(BracesOnly, ',', lo, s)
  }

  lemma NoCommentConcat(a: string, b: string)
    requires NoComment(a) && NoComment(b)
    ensures NoComment(a + b)
  {
    hide JsComments.Strip;
    forall tail: string ensures JsComments.Strip(a + b + tail) == a + b + JsComments.Strip(tail) {
      assert a + b + tail == a + (b + tail);
      assert JsComments.Strip(a + (b + tail)) == a + JsComments.Strip(b + tail);
      assert a + (b + JsComments.Strip(tail)) == a + b + JsComments.Strip(tail);
    }
  }

  lemma QuietConcat(kind: Kind, stop: char, lo: nat, a: string, b: string)
    requires Quiet(kind, stop, lo, a) && Quiet(kind, stop, lo, b)
    ensures Quiet(kind, stop, lo, a + b)
  {
    hide Run, Safe;
    forall d: nat | d >= lo ensures Run(kind, Level(d), a + b) == Level(d) && Safe(kind, stop, Level(d), a + b) {
      RunConcat(kind, Level(d), a, b);
      SafeConcat(kind, stop, Level(d), a, b);
    }
  }

  lemma CalmConcat(lo: nat, a: string, b: string)
    requires Calm(lo, a) && Calm(lo, b)
    ensures Calm(lo, a + b)
  {
    hide NoComment, Quiet;
    NoCommentConcat(a, b);
    QuietConcat(AllBrackets, ')', lo, a, b);
    QuietConcat(BracesOnly, ',', lo, a, b);
  }

  lemma CalmInside(s: string)
    requires Calm(0, s)
    ensures Calm(1, s)
  {
  }

  // ----- plain text

  predicate PlainScan(c: char) {
    c != '"' && c != '\'' && c != '/' && c != ',' && c !in "(){}[]"
  }

  lemma CharSteps(kind: Kind, stop: char, st: State, c: char)
    ensures Run(kind, st, [c]) == Step(kind, st, c) && Safe(kind, stop, st, [c]) == !(AtTop(st) && c == stop)
  {
    assert [c][1..] == "";
  }

  lemma NoCommentChar(c: char)
    requires c != '"' && c != '\'' && c != '/'
    ensures NoComment([c])
  {
    forall tail: string ensures JsComments.Strip([c] + tail) == [c] + JsComments.Strip(tail) {
      JsComments.PlainHead(c, tail);
    }
  }

  lemma CalmChar(c: char)
    requires PlainScan(c)
    ensures Calm(0, [c])
  {
    NoCommentChar(c);
    forall d: nat, kind: Kind, stop: char | stop == ')' || stop == ','
      ensures Run(kind, Level(d), [c]) == Level(d) && Safe(kind, stop, Level(d), [c])
    {
      CharSteps(kind, stop, Level(d), c);
    }
  }

  lemma CalmNothing()
    ensures Calm(0, "")
  {
    forall tail: string ensures JsComments.Strip("" + tail) == "" + JsComments.Strip(tail) {
      assert "" + tail == tail;
    }
  }

  lemma {:induction false} CalmPlain(s: string)
    requires forall i | 0 <= i < |s| :: PlainScan(s[i])
    ensures Calm(0, s)
  {
    hide Calm;
    if s == "" {
      CalmNothing();
    } else {
      CalmChar(s[0]);
      CalmPlain(s[1..]);
      CalmConcat(0, [s[0]], s[1..]);
      assert s == [s[0]] + s[1..];
    }
  }

  lemma CalmComma()
    ensures Calm(1, ",")
  {
    NoCommentChar(',');
    forall d: nat, kind: Kind, stop: char | d >= 1
      ensures Run(kind, Level(d), ",") == Level(d) && Safe(kind, stop, Level(d), ",")
    {
      CharSteps(kind, stop, Level(d), ',');
    }
  }

  // ----- brackets

  lemma QuietGroup(kind: Kind, stop: char, open: char, s: string, close: char)
    requires Opens(kind, open) && Closes(kind, close) && open != stop && (stop == ')' || stop == ',')
    requires Quiet(kind, stop, 1, s)
    ensures Quiet(kind, stop, 0, [open] + (s + [close]))
  {
    hide Run, Safe;
    forall d: nat
      ensures Run(kind, Level(d), [open] + (s + [close])) == Level(d)
      ensures Safe(kind, stop, Level(d), [open] + (s + [close]))
    {
      CharSteps(kind, stop, Level(d), open);
      CharSteps(kind, stop, Level(d + 1), close);
      RunConcat(kind, Level(d + 1), s, [close]);
      SafeConcat(kind, stop, Level(d + 1), s, [close]);
      RunConcat(kind, Level(d), [open], s + [close]);
      SafeConcat(kind, stop, Level(d), [open], s + [close]);
    }
  }

  lemma NoCommentGroup(open: char, s: string, close: char)
    requires PlainForComments(open) && PlainForComments(close) && NoComment(s)
    ensures NoComment([open] + (s + [close]))
  {
    hide NoComment;
    NoCommentChar(open);
    NoCommentChar(close);
    NoCommentConcat(s, [close]);
    NoCommentConcat([open], s + [close]);
  }

  predicate PlainForComments(c: char) {
    c != '"' && c != '\'' && c != '/'
  }

  lemma CalmGroup(open: char, s: string, close: char)
    requires (open == '[' && close == ']') || (open == '{' && close == '}')
    requires Calm(1, s)
    ensures Calm(0, [open] + (s + [close]))
  {
    hide NoComment, Quiet;
    NoCommentGroup(open, s, close);
    QuietGroup(AllBrackets, ')', open, s, close);
    QuietGroup(BracesOnly, ',', open, s, close);
  }

  lemma QuietParenChar(c: char)
    requires c == '(' || c == ')'
    ensures Quiet(BracesOnly, ',', 0, [c])
  {
    forall d: nat ensures Run(BracesOnly, Level(d), [c]) == Level(d) && Safe(BracesOnly, ',', Level(d), [c]) {
      CharSteps(BracesOnly, ',', Level(d), c);
    }
  }

  lemma CalmParens(s: string)
    requires Calm(0, s)
    ensures Calm(0, "(" + (s + ")"))
  {
    CalmInside(s);
    hide NoComment, Quiet;
    NoCommentGroup('(', s, ')');
    QuietGroup(AllBrackets, ')', '(', s, ')');
    QuietParenChar('(');
    QuietParenChar(')');
    QuietConcat(BracesOnly, ',', 0, s, ")");
    QuietConcat(BracesOnly, ',', 0, "(", s + ")");
  }

  // ----- string literals

  /** A scan inside a string literal that is still open behind `s`. */
  lemma {:induction false} InsideRun(kind: Kind, stop: char, d: int, quote: char, s: string)
    requires JsComments.LeavesOpen(quote, s)
    ensures var st := State(d, Some(quote), false); Run(kind, st, s) == st && Safe(kind, stop, st, s)
  {
    if s != "" {
      if s[0] == '\\' {
        InsideRun(kind, stop, d, quote, s[2..]);
        assert s[1..][1..] == s[2..];
      } else {
        InsideRun(kind, stop, d, quote, s[1..]);
      }
    }
  }

  function InLiteral(quote: char, body: string): string {
    [quote] + body + [quote]
  }

  lemma QuietLit(kind: Kind, stop: char, quote: char, body: string)
    requires JsComments.IsQuote(quote) && JsComments.LeavesOpen(quote, body) && !JsComments.IsQuote(stop)
    ensures Quiet(kind, stop, 0, InLiteral(quote, body))
  {
    hide Run, Safe, JsComments.LeavesOpen;
    forall d: nat
      ensures Run(kind, Level(d), InLiteral(quote, body)) == Level(d)
      ensures Safe(kind, stop, Level(d), InLiteral(quote, body))
    {
      var st := State(d, Some(quote), false);
      InsideRun(kind, stop, d, quote, body);
      CharSteps(kind, stop, Level(d), quote);
      CharSteps(kind, stop, st, quote);
      RunConcat(kind, Level(d), [quote], body);
      SafeConcat(kind, stop, Level(d), [quote], body);
      RunConcat(kind, Level(d), [quote] + body, [quote]);
      SafeConcat(kind, stop, Level(d), [quote] + body, [quote]);
    }
  }

  lemma LitToken(quote: char, body: string, tail: string)
    requires JsComments.IsQuote(quote) && JsComments.LeavesOpen(quote, body)
    ensures JsComments.First(InLiteral(quote, body) + tail) == JsComments.Quoted(InLiteral(quote, body))
  {
    hide JsComments.LiteralLength, JsComments.LeavesOpen;
    var text := InLiteral(quote, body);
    var s := text + tail;
    JsComments.LiteralCloses(quote, body, tail);
    assert s[1..] == body + [quote] + tail;
    assert s[..|text|] == text;
  }

  lemma NoCommentLit(quote: char, body: string)
    requires JsComments.IsQuote(quote) && JsComments.LeavesOpen(quote, body)
    ensures NoComment(InLiteral(quote, body))
  {
    hide JsComments.LeavesOpen, JsComments.First;
    var text := InLiteral(quote, body);
    forall tail: string ensures JsComments.Strip(text + tail) == text + JsComments.Strip(tail) {
      LitToken(quote, body, tail);
      assert (text + tail)[|text|..] == tail;
    }
  }

  lemma CalmLit(quote: char, body: string)
    requires JsComments.IsQuote(quote) && JsComments.LeavesOpen(quote, body)
    ensures Calm(0, InLiteral(quote, body))
  {
    hide NoComment, Quiet, InLiteral, JsComments.LeavesOpen;
    NoCommentLit(quote, body);
    QuietLit(AllBrackets, ')', quote, body);
    QuietLit(BracesOnly, ',', quote, body);
  }

  lemma CalmWfLit(lit: Lit)
    requires WfLit(lit)
    ensures Calm(0, LitText(lit))
  {
    hide Calm, UnitsText, JsComments.LeavesOpen;
    UnitsClose(lit.quote, lit.units);
    CalmLit(lit.quote, UnitsText(lit.units));
  }

  // ----- trees

  lemma CalmSpace(s: string)
    requires IsSpace(s)
    ensures Calm(0, s) && Calm(1, s)
  {
    CalmPlain(s);
    CalmInside(s);
  }

  lemma WordIsPlain(u: Unicode, c: char)
    requires Coherent(u) && InWord(u, c)
    ensures PlainScan(c)
  {
    if c < '\U{0080}' {
      AsciiChar(u, c);
    }
  }

  lemma CalmIdentifier(u: Unicode, name: string)
    requires Coherent(u) && IsIdentifier(u, name)
    ensures Calm(0, name)
  {
    forall i | 0 <= i < |name| ensures PlainScan(name[i]) {
      WordIsPlain(u, name[i]);
    }
    CalmPlain(name);
  }

  lemma CalmKey(u: Unicode, key: Key)
    requires Coherent(u) && WfKey(u, key)
    ensures Calm(0, KeyText(key))
  {
    hide Calm;
    match key
    case Bare(name) => CalmIdentifier(u, name);
    case Named(lit) => CalmWfLit(lit);
  }

  lemma CalmArg(arg: CtorArg)
    requires WfArg(arg) && ClosedArg(arg)
    ensures Calm(0, ArgText(arg))
  {
    hide Calm;
    match arg
    case QuotedArg(quote, body) => CalmLit(quote, body);
    case BareArg(number) => CalmPlain(number);
  }

  lemma CalmThree(lo: nat, a: string, b: string, c: string)
    requires Calm(lo, a) && Calm(lo, b) && Calm(lo, c)
    ensures Calm(lo, a + (b + c)) && Calm(lo, a + b + c)
  {
    hide Calm;
    CalmConcat(lo, b, c);
    CalmConcat(lo, a, b + c);
    assert a + b + c == a + (b + c);
  }

  lemma CalmCtor(u: Unicode, v: Json)
    requires Coherent(u) && Wf(u, v) && Closed(v) && v.Ctor?
    ensures Calm(0, Render(v))
  {
    hide Calm, IsCtorName, IsSpace, WfArg, ClosedArg, Coherent;
    CtorNameIsWord(u, v.name);
    CalmIdentifier(u, v.name);
    CalmSpace(v.gap);
    CalmSpace(v.before);
    CalmSpace(v.after);
    CalmArg(v.arg);
    var body := v.before + ArgText(v.arg) + v.after;
    CalmThree(0, v.before, ArgText(v.arg), v.after);
    CalmParens(body);
    CalmThree(0, v.name, v.gap, "(" + (body + ")"));
  }

  lemma CalmNumber(s: string)
    requires IsNumber(s)
    ensures Calm(0, s)
  {
    NumberIsText(s);
    CalmPlain(s);
  }

  /** Scanners pass over the text of a value. */
  lemma {:induction false} CalmValue(u: Unicode, v: Json)
    requires Coherent(u) && Wf(u, v) && Closed(v)
    ensures Calm(0, Render(v)) && Calm(1, Render(v))
  {
    hide Calm, Coherent, IsNumber;
    match v {
      case Str(lit) => CalmWfLit(lit);
      case Word(word) => CalmPlain(word);
      case Num(number) => CalmNumber(number);
      case Arr(items) =>
        CalmItems(u, items);
        CalmGroup('[', RenderItems(items), ']');
      case Obj(members) =>
        CalmMembers(u, members);
        CalmGroup('{', RenderMembers(members), '}');
      case Ctor(_, _, _, _, _) => CalmCtor(u, v);
    }
    CalmInside(Render(v));
  }

  lemma CalmAfterComma(s: string)
    requires Calm(1, s)
    ensures Calm(1, "," + s)
  {
    hide Calm;
    CalmComma();
    CalmConcat(1, ",", s);
  }

  lemma {:induction false} CalmItems(u: Unicode, items: Items)
    requires Coherent(u) && WfItems(u, items) && ClosedItems(items)
    ensures Calm(1, RenderItems(items))
  {
    hide Calm, Coherent, IsSpace, Render;
    match items
    case NoItems(space) => CalmSpace(space);
    case LastItem(before, value, after) =>
      CalmSpace(before);
      CalmSpace(after);
      CalmValue(u, value);
      CalmThree(1, before, Render(value), after);
    case Item(before, value, after, rest) =>
      CalmSpace(before);
      CalmSpace(after);
      CalmValue(u, value);
      CalmItems(u, rest);
      CalmAfterComma(RenderItems(rest));
      CalmConcat(1, after, "," + RenderItems(rest));
      CalmThree(1, before, Render(value), after + ("," + RenderItems(rest)));
  }

  lemma {:induction false} CalmMember(u: Unicode, m: Member)
    requires Coherent(u) && WfMember(u, m) && Closed(m.value)
    ensures Calm(1, RenderMember(m))
  {
    hide Calm, Coherent, IsSpace, Render, WfKey;
    CalmSpace(m.before);
    CalmSpace(m.colon);
    CalmSpace(m.gap);
    CalmSpace(m.after);
    CalmKey(u, m.key);
    CalmInside(KeyText(m.key));
    CalmValue(u, m.value);
    CalmColon();
    var value := m.gap + (Render(m.value) + m.after);
    CalmThree(1, m.gap, Render(m.value), m.after);
    CalmThree(1, m.colon, ":", value);
    CalmThree(1, m.before, KeyText(m.key), m.colon + (":" + value));
  }

  lemma CalmColon()
    ensures Calm(1, ":")
  {
    CalmPlain(":");
    CalmInside(":");
  }

  lemma {:induction false} CalmMembers(u: Unicode, members: Members)
    requires Coherent(u) && WfMembers(u, members) && ClosedMembers(members)
    ensures Calm(1, RenderMembers(members))
  {
    hide Calm, Coherent, RenderMember;
    match members
    case NoMembers(space) => CalmSpace(space);
    case LastMember(m) => CalmMember(u, m);
    case MoreMembers(m, rest) =>
      CalmMember(u, m);
      CalmMembers(u, rest);
      CalmAfterComma(RenderMembers(rest));
      CalmConcat(1, RenderMember(m), "," + RenderMembers(rest));
  }

  /** A value with space around it is one argument, well nested and free of comments. */
  lemma ValueIsArgument(u: Unicode, before: string, v: Json, after: string)
    requires Coherent(u) && Wf(u, v) && Closed(v) && IsSpace(before) && IsSpace(after)
    ensures var text := before + (Render(v) + after); IsArgument(text) && Calm(0, text)
  {
    CalmSpace(before);
    CalmSpace(after);
    CalmValue(u, v);
    CalmThree(0, before, Render(v), after);
  }
}
