/** Comments in a MongoDB shell command: `//` to the end of the line and slash-star blocks, neither
    of which begins inside a string literal. */
module JsComments {
  import opened Text

  datatype Token =
    | Quoted(quoted: string)
    | LineComment(line: string)
    | BlockComment(block: string)
    | Plain(plain: char)
  {
    function Source(): string {
      match this
      case Quoted(text) => text
      case LineComment(text) => text
      case BlockComment(text) => text
      case Plain(c) => [c]
    }

    /** What is left of the token: a comment becomes nothing, or its line breaks and one space. */
    function Kept(): string {
      match this
      case LineComment(_) => ""
      case BlockComment(text) => Repeat('\n', Count(text, '\n')) + " "
      case _ => Source()
    }
  }

  predicate IsQuote(c: char) {
    c == '"' || c == '\''
  }

  /** The length of a string literal that `quote` has just opened, its closing quote included; all of
      `s` when it is never closed. */
  function LiteralLength(quote: char, s: string): (n: nat)
    ensures n <= |s|
  {
    if s == [] then 0
    else if s[0] == '\\' && |s| > 1 then 2 + LiteralLength(quote, s[2..])
    else if s[0] == quote then 1
    else 1 + LiteralLength(quote, s[1..])
  }

  /** A literal opened before `s` is still open behind it: no quote in it closes the literal, and its
      last character is not a backslash that would escape the next one. */
  predicate LeavesOpen(quote: char, s: string) {
    s == [] ||
    (if s[0] == '\\' then |s| > 1 && LeavesOpen(quote, s[2..]) else s[0] != quote && LeavesOpen(quote, s[1..]))
  }

  lemma {:induction false} ClosesConcat(quote: char, a: string, b: string)
    requires LeavesOpen(quote, a) && LeavesOpen(quote, b)
    ensures LeavesOpen(quote, a + b)
  {
    if a == [] {
      assert a + b == b;
    } else if a[0] == '\\' {
      ClosesConcat(quote, a[2..], b);
      assert (a + b)[2..] == a[2..] + b;
    } else {
      ClosesConcat(quote, a[1..], b);
      assert (a + b)[1..] == a[1..] + b;
    }
  }

  /** The next quote is the one that closes it. */
  lemma {:induction false} LiteralCloses(quote: char, s: string, tail: string)
    requires IsQuote(quote) && LeavesOpen(quote, s)
    ensures LiteralLength(quote, s + [quote] + tail) == |s| + 1
  {
    var t := s + [quote] + tail;
    if s == [] {
      assert t == [quote] + tail;
    } else if s[0] == '\\' {
      LiteralCloses(quote, s[2..], tail);
      assert t[2..] == s[2..] + [quote] + tail;
    } else {
      LiteralCloses(quote, s[1..], tail);
      assert t[1..] == s[1..] + [quote] + tail;
    }
  }

  /** The length of a line comment, its line break not included. */
  function LineLength(s: string): (n: nat)
    ensures n <= |s| && '\n' !in s[..n] && (n < |s| ==> s[n] == '\n')
  {
    if s == [] || s[0] == '\n' then 0 else 1 + LineLength(s[1..])
  }

  /** The length of the rest of a block comment, its end included. */
  function BlockLength(s: string): (n: nat)
    ensures n <= |s|
  {
    if s == [] then 0
    else if s[0] == '*' && |s| > 1 && s[1] == '/' then 2
    else 1 + BlockLength(s[1..])
  }

  predicate OpensWith(s: string, a: char, b: char) {
    |s| > 1 && s[0] == a && s[1] == b
  }

  function First(s: string): (t: Token)
    requires s != []
    ensures t.Source() != [] && t.Source() <= s
  {
    if IsQuote(s[0]) then Quoted(s[..1 + LiteralLength(s[0], s[1..])])
    else if OpensWith(s, '/', '/') then LineComment(s[..LineLength(s)])
    else if OpensWith(s, '/', '*') then BlockComment(s[..2 + BlockLength(s[2..])])
    else Plain(s[0])
  }

  function AfterFirst(s: string): (rest: string)
    requires s != []
    ensures |rest| < |s| && s == First(s).Source() + rest
  {
    s[|First(s).Source()|..]
  }

  function Tokens(s: string): seq<Token> {
    if s == [] then [] else [First(s)] + Tokens(AfterFirst(s))
  }

  function Strip(s: string): string {
    if s == [] then "" else First(s).Kept() + Strip(AfterFirst(s))
  }

  /** The text between the quotes of every string literal, in order. */
  function Literals(s: string): seq<string> {
    if s == [] then []
    else if First(s).Quoted? then [First(s).quoted] + Literals(AfterFirst(s))
    else Literals(AfterFirst(s))
  }

  // ----- the scanner

  lemma Copied(out: string, s: string, start: nat, i: nat)
    requires start <= i < |s|
    ensures out + s[start..i] + [s[i]] == out + s[start..i + 1]
  {
    assert s[start..i] + [s[i]] == s[start..i + 1];
  }

  /** One turn of the loop over a literal, in positions of the whole input. */
  lemma LiteralTurn(quote: char, s: string, i: nat)
    requires i < |s|
    ensures LiteralLength(quote, s[i..]) ==
      if s[i] == '\\' && i + 1 < |s| then 2 + LiteralLength(quote, s[i + 2..])
      else if s[i] == quote then 1
      else 1 + LiteralLength(quote, s[i + 1..])
  {
    SliceSnoc(s, i, i);
  }

  method CopyLiteral(input: string, start: nat, out: string) returns (copied: string, i: nat)
    requires start < |input| && IsQuote(input[start])
    ensures i == start + 1 + LiteralLength(input[start], input[start + 1..]) <= |input|
    ensures copied == out + input[start..i]
  {
    hide LiteralLength;
    var quote := input[start];
    copied := out + [quote];
    i := start + 1;
    ghost var end := start + 1 + LiteralLength(quote, input[start + 1..]);
    while i < |input|
      invariant start < i <= end <= |input| && end == i + LiteralLength(quote, input[i..])
      invariant copied == out + input[start..i]
    {
      LiteralTurn(quote, input, i);
      Copied(out, input, start, i);
      copied := copied + [input[i]];
      if input[i] == '\\' && i + 1 < |input| {
        Copied(out, input, start, i + 1);
        i := i + 1;
        copied := copied + [input[i]];
      } else if input[i] == quote {
        i := i + 1;
        break;
      }
      i := i + 1;
    }
  }

  method SkipLine(input: string, start: nat) returns (i: nat)
    requires start < |input|
    ensures i == start + LineLength(input[start..]) <= |input|
  {
    i := start;
    ghost var end := start + LineLength(input[start..]);
    while i < |input| && input[i] != '\n'
      invariant i <= end <= |input| && end == i + LineLength(input[i..])
    {
      SliceSnoc(input, i, i);
      i := i + 1;
    }
  }

  lemma {:induction false} CountSnoc(s: string, c: char, d: char)
    ensures Count(s + [c], d) == Count(s, d) + if c == d then 1 else 0
  {
    if s != [] {
      CountSnoc(s[1..], c, d);
      assert (s + [c])[1..] == s[1..] + [c];
    }
  }

  lemma BlockEnd(input: string, start: nat, i: nat)
    requires start <= i && i + 1 < |input| && input[i] == '*' && input[i + 1] == '/'
    ensures Count(input[start..i + 2], '\n') == Count(input[start..i], '\n')
  {
    SliceSnoc(input, start, i);
    SliceSnoc(input, start, i + 1);
    CountSnoc(input[start..i], '*', '\n');
    CountSnoc(input[start..i + 1], '/', '\n');
  }

  lemma RepeatSnoc(c: char, n: nat)
    ensures Repeat(c, n) + [c] == Repeat(c, n + 1)
  {
  }

  /** What has been kept of a block comment up to `i`: its line breaks. */
  ghost predicate KeptSoFar(input: string, start: nat, i: nat, out: string, kept: string) {
    start + 2 <= i <= |input| && kept == out + Repeat('\n', Count(input[start..i], '\n'))
  }

  lemma KeptFurther(input: string, start: nat, i: nat, out: string, kept: string)
    requires i < |input| && KeptSoFar(input, start, i, out, kept)
    ensures KeptSoFar(input, start, i + 1, out, if input[i] == '\n' then kept + "\n" else kept)
  {
    hide Count, Repeat;
    SliceSnoc(input, start, i);
    CountSnoc(input[start..i], input[i], '\n');
    var n := Count(input[start..i], '\n');
    RepeatSnoc('\n', n);
    Assoc(out, Repeat('\n', n), "\n");
  }

  lemma KeptStart(input: string, start: nat, out: string)
    requires start < |input| && OpensWith(input[start..], '/', '*')
    ensures KeptSoFar(input, start, start + 2, out, out)
  {
    assert input[start..start + 2] == "/*" && Count("/*", '\n') == 0;
  }

  lemma BlockTurn(input: string, i: nat)
    requires i < |input|
    ensures BlockLength(input[i..])
      == if input[i] == '*' && i + 1 < |input| && input[i + 1] == '/' then 2 else 1 + BlockLength(input[i + 1..])
  {
    SliceSnoc(input, i, i);
  }

  /** The line breaks before the end of the comment are kept. */
  method SkipBlock(input: string, start: nat, out: string) returns (kept: string, i: nat)
    requires start < |input| && OpensWith(input[start..], '/', '*')
    ensures i == start + 2 + BlockLength(input[start + 2..]) <= |input|
    ensures kept == out + (Repeat('\n', Count(input[start..i], '\n')) + " ")
  {
    kept := out;
    i := start + 2;
    ghost var end := start + 2 + BlockLength(input[start + 2..]);
    KeptStart(input, start, out);
    while i < |input| && !(input[i] == '*' && i + 1 < |input| && input[i + 1] == '/')
      invariant start + 2 <= i <= end <= |input| && end == i + BlockLength(input[i..])
      invariant KeptSoFar(input, start, i, out, kept)
    {
      BlockTurn(input, i);
      KeptFurther(input, start, i, out, kept);
      if input[i] == '\n' {
        kept := kept + "\n";
      }
      i := i + 1;
    }
    if i < |input| {
      BlockTurn(input, i);
      BlockEnd(input, start, i);
    }
    ghost var breaks := Repeat('\n', Count(input[start..i], '\n'));
    Assoc(out, breaks, " ");
    i := if i + 2 < |input| then i + 2 else |input|;
    kept := kept + " ";
  }

  /** One token of the input. */
  method NextToken(input: string, start: nat, out: string) returns (more: string, i: nat)
    requires start < |input|
    ensures i == start + |First(input[start..]).Source()| <= |input|
    ensures more == out + First(input[start..]).Kept()
  {
    assert input[start..][1..] == input[start + 1..];
    if IsQuote(input[start]) {
      more, i := CopyLiteral(input, start, out);
      assert input[start..][..i - start] == input[start..i];
    } else if input[start] == '/' && start + 1 < |input| && input[start + 1] == '/' {
      i := SkipLine(input, start);
      more := out;
    } else if input[start] == '/' && start + 1 < |input| && input[start + 1] == '*' {
      assert input[start..][2..] == input[start + 2..];
      more, i := SkipBlock(input, start, out);
      assert input[start..][..i - start] == input[start..i];
    } else {
      more := out + [input[start]];
      i := start + 1;
    }
  }

  lemma StripStep(s: string, out: string, whole: string)
    requires s != [] && out + Strip(s) == whole
    ensures out + First(s).Kept() + Strip(AfterFirst(s)) == whole
  {
    Assoc(out, First(s).Kept(), Strip(AfterFirst(s)));
  }

  method StripJsComments(input: string) returns (out: string)
    ensures out == Strip(input)
  {
    out := "";
    var i := 0;
    while i < |input|
      invariant i <= |input| && out + Strip(input[i..]) == Strip(input)
    {
      StripStep(input[i..], out, Strip(input));
      ghost var rest := input[i..];
      out, i := NextToken(input, i, out);
      assert AfterFirst(rest) == input[i..];
    }
  }

  // ----- what stripping keeps

  /** A literal that is closed inside `s` does not depend on what follows it. */
  lemma {:induction false} LiteralKept(quote: char, s: string, tail: string)
    requires LiteralLength(quote, s) < |s|
    ensures LiteralLength(quote, s[..LiteralLength(quote, s)] + tail) == LiteralLength(quote, s)
  {
    var n := LiteralLength(quote, s);
    if s[0] == '\\' && |s| > 1 {
      LiteralKept(quote, s[2..], tail);
      assert (s[..n] + tail)[2..] == s[2..][..n - 2] + tail;
    } else if s[0] != quote {
      LiteralKept(quote, s[1..], tail);
      assert (s[..n] + tail)[1..] == s[1..][..n - 1] + tail;
    }
  }

  /** A literal cut short is a literal that is never closed. */
  lemma {:induction false} LiteralCut(quote: char, s: string, k: nat)
    requires k <= LiteralLength(quote, s)
    ensures LiteralLength(quote, s[..k]) == k
  {
    if k == 1 {
      assert s[..k][1..] == [];
    } else if k > 1 {
      if s[0] == '\\' && |s| > 1 {
        LiteralCut(quote, s[2..], k - 2);
        assert s[..k][2..] == s[2..][..k - 2];
      } else {
        LiteralCut(quote, s[1..], k - 1);
        assert s[..k][1..] == s[1..][..k - 1];
      }
    }
  }

  predicate IsComment(t: Token) {
    t.LineComment? || t.BlockComment?
  }

  lemma QuotedAgain(s: string, tail: string)
    requires s != [] && IsQuote(s[0]) && (AfterFirst(s) == [] ==> tail == [])
    ensures First(First(s).Source() + tail) == First(s)
  {
    var t := First(s);
    var n := LiteralLength(s[0], s[1..]);
    var u := t.Source() + tail;
    if AfterFirst(s) == [] {
      assert u == s;
    } else {
      LiteralKept(s[0], s[1..], tail);
      assert u[1..] == s[1..][..n] + tail;
      assert u[..1 + n] == t.Source();
    }
  }

  /** A token that is not a comment is read back from in front of any text that cannot run into it. */
  lemma FirstAgain(s: string, tail: string)
    requires s != [] && !IsComment(First(s)) && (AfterFirst(s) == [] ==> tail == [])
    requires s[0] == '/' && tail != [] ==> tail[0] != '/' && tail[0] != '*'
    ensures var u := First(s).Source() + tail; First(u) == First(s) && AfterFirst(u) == tail
  {
    var u := First(s).Source() + tail;
    if IsQuote(s[0]) {
      QuotedAgain(s, tail);
    }
    assert u[|First(s).Source()|..] == tail;
  }

  lemma StripHead(s: string)
    requires s != [] && s[0] != '/'
    ensures Strip(s) != [] && Strip(s)[0] == s[0]
  {
  }

  /** What stripping leaves after a plain slash does not turn it into the start of a comment. */
  lemma NoNewComment(s: string)
    requires s != [] && !IsComment(First(s)) && s[0] == '/'
    ensures var tail := Strip(AfterFirst(s)); tail != [] ==> tail[0] != '/' && tail[0] != '*'
    ensures AfterFirst(s) == [] ==> Strip(AfterFirst(s)) == []
  {
    var rest := AfterFirst(s);
    if rest != [] {
      assert rest[0] == s[1];
      StripHead(rest);
    }
  }

  /** A character that opens neither a literal nor a comment. */
  lemma PlainHead(c: char, s: string)
    requires !IsQuote(c) && c != '/'
    ensures Strip([c] + s) == [c] + Strip(s) && Literals([c] + s) == Literals(s)
  {
    assert AfterFirst([c] + s) == s;
  }

  lemma {:induction false} PlainPrefix(p: string, s: string)
    requires forall k | 0 <= k < |p| :: !IsQuote(p[k]) && p[k] != '/'
    ensures Strip(p + s) == p + Strip(s) && Literals(p + s) == Literals(s)
  {
    if p == [] {
      assert p + s == s && p + Strip(s) == Strip(s);
    } else {
      PlainPrefix(p[1..], s);
      PlainHead(p[0], p[1..] + s);
      HeadFirst(p, s);
      HeadFirst(p, Strip(s));
    }
  }

  lemma HeadFirst(p: string, s: string)
    requires p != []
    ensures p + s == [p[0]] + (p[1..] + s)
  {
  }

  lemma StripOfToken(s: string)
    requires s != [] && !IsComment(First(s))
    ensures Strip(Strip(s)) == First(s).Source() + Strip(Strip(AfterFirst(s)))
    ensures Literals(Strip(s)) == (if First(s).Quoted? then [First(s).quoted] else []) + Literals(Strip(AfterFirst(s)))
  {
    var rest := AfterFirst(s);
    var tail := Strip(rest);
    if s[0] == '/' {
      NoNewComment(s);
    }
    FirstAgain(s, tail);
  }

  lemma StripOfComment(s: string)
    requires s != [] && IsComment(First(s))
    ensures Strip(Strip(s)) == First(s).Kept() + Strip(Strip(AfterFirst(s)))
    ensures Literals(Strip(s)) == Literals(Strip(AfterFirst(s)))
  {
    PlainPrefix(First(s).Kept(), Strip(AfterFirst(s)));
  }

  /** Stripped text has no comment left to strip. */
  lemma {:induction false} StripIdempotent(s: string)
    ensures Strip(Strip(s)) == Strip(s)
  {
    if s != [] {
      StripIdempotent(AfterFirst(s));
      if IsComment(First(s)) {
        StripOfComment(s);
      } else {
        StripOfToken(s);
      }
    }
  }

  /** The string literals of stripped text are those of the original, verbatim and in order. */
  lemma {:induction false} StripKeepsLiterals(s: string)
    ensures Literals(Strip(s)) == Literals(s)
  {
    if s != [] {
      StripKeepsLiterals(AfterFirst(s));
      if IsComment(First(s)) {
        StripOfComment(s);
      } else {
        StripOfToken(s);
      }
    }
  }

  predicate IsGap(t: Token) {
    t.BlockComment? || (t.Plain? && IsWhitespace(t.plain))
  }

  function TokenMarks(t: Token, gap: bool): seq<Token> {
    if t.LineComment? then [] else if !IsGap(t) then [t] else if gap then [] else [Plain(' ')]
  }

  predicate GapAfter(t: Token, gap: bool) {
    if t.LineComment? then gap else IsGap(t)
  }

  /** The text as a reader takes it: literals and single characters, with one space for each stretch
      of whitespace and block comments. `gap` says that such a stretch has already begun. */
  function Marks(s: string, gap: bool): seq<Token>
    decreases |s|
  {
    if s == [] then [] else TokenMarks(First(s), gap) + Marks(AfterFirst(s), GapAfter(First(s), gap))
  }

  lemma BlankMark(c: char, s: string, gap: bool)
    requires c == '\n' || c == ' '
    ensures Marks([c] + s, gap) == (if gap then [] else [Plain(' ')]) + Marks(s, true)
  {
    assert First([c] + s) == Plain(c);
    assert AfterFirst([c] + s) == s;
  }

  lemma {:induction false} BlankMarks(p: string, s: string, gap: bool)
    requires p != [] && forall k | 0 <= k < |p| :: p[k] == '\n' || p[k] == ' '
    ensures Marks(p + s, gap) == (if gap then [] else [Plain(' ')]) + Marks(s, true)
    decreases |p|
  {
    hide Marks;
    HeadFirst(p, s);
    BlankMark(p[0], p[1..] + s, gap);
    if |p| > 1 {
      BlankMarks(p[1..], s, true);
      assert [] + Marks(s, true) == Marks(s, true);
    } else {
      assert p[1..] + s == s;
    }
  }

  lemma MarksOfToken(s: string, gap: bool)
    requires s != [] && !IsComment(First(s))
    ensures First(Strip(s)) == First(s) && AfterFirst(Strip(s)) == Strip(AfterFirst(s)) && Strip(s) != []
  {
    if s[0] == '/' {
      NoNewComment(s);
    }
    FirstAgain(s, Strip(AfterFirst(s)));
  }

  lemma MarksFirst(s: string, gap: bool)
    requires s != []
    ensures Marks(s, gap) == TokenMarks(First(s), gap) + Marks(AfterFirst(s), GapAfter(First(s), gap))
  {
  }

  lemma BlockMarks(s: string, gap: bool)
    requires s != [] && First(s).BlockComment?
    ensures Marks(Strip(s), gap) == TokenMarks(First(s), gap) + Marks(Strip(AfterFirst(s)), true)
  {
    hide Marks;
    BlankMarks(First(s).Kept(), Strip(AfterFirst(s)), gap);
  }

  lemma LineMarks(s: string, gap: bool)
    requires s != [] && First(s).LineComment?
    ensures Strip(s) == Strip(AfterFirst(s)) && TokenMarks(First(s), gap) == [] && GapAfter(First(s), gap) == gap
  {
    hide First, AfterFirst;
    assert First(s).Kept() == "";
    assert "" + Strip(AfterFirst(s)) == Strip(AfterFirst(s));
  }

  /** A reader sees the same literals, the same characters and the same gaps between them. */
  lemma {:induction false} StripKeepsMarks(s: string, gap: bool)
    ensures Marks(Strip(s), gap) == Marks(s, gap)
    decreases |s|
  {
    hide Marks, Strip, First, TokenMarks, AfterFirst;
    if s != [] {
      MarksFirst(s, gap);
      StripKeepsMarks(AfterFirst(s), GapAfter(First(s), gap));
      if First(s).BlockComment? {
        BlockMarks(s, gap);
      } else if First(s).LineComment? {
        LineMarks(s, gap);
        assert [] + Marks(AfterFirst(s), gap) == Marks(AfterFirst(s), gap);
      } else {
        MarksOfToken(s, gap);
        MarksFirst(Strip(s), gap);
      }
    } else {
      StripNothing();
    }
  }

  lemma StripNothing()
    ensures Strip([]) == []
  {
  }

  lemma {:induction false} CountConcat(a: string, b: string, c: char)
    ensures Count(a + b, c) == Count(a, c) + Count(b, c)
  {
    if a == [] {
      assert a + b == b;
    } else {
      CountConcat(a[1..], b, c);
      assert (a + b)[1..] == a[1..] + b;
    }
  }

  lemma {:induction false} CountRepeat(c: char, n: nat)
    ensures Count(Repeat(c, n), c) == n
  {
    if n > 0 {
      CountRepeat(c, n - 1);
      assert Repeat(c, n)[1..] == Repeat(c, n - 1);
    }
  }

  lemma {:induction false} CountAbsent(s: string, c: char)
    requires c !in s
    ensures Count(s, c) == 0
  {
    if s != [] {
      CountAbsent(s[1..], c);
    }
  }

  lemma KeptLineBreaks(s: string)
    requires s != []
    ensures Count(First(s).Kept(), '\n') == Count(First(s).Source(), '\n')
  {
    match First(s)
    case LineComment(text) => CountAbsent(text, '\n');
    case BlockComment(text) =>
      var n := Count(text, '\n');
      CountConcat(Repeat('\n', n), " ", '\n');
      CountRepeat('\n', n);
    case _ =>
  }

  /** Stripping keeps the number of line breaks, so a position still names the same line. */
  lemma {:induction false} StripKeepsLineBreaks(s: string)
    ensures Count(Strip(s), '\n') == Count(s, '\n')
  {
    if s != [] {
      StripKeepsLineBreaks(AfterFirst(s));
      KeptLineBreaks(s);
      CountConcat(First(s).Kept(), Strip(AfterFirst(s)), '\n');
      CountConcat(First(s).Source(), AfterFirst(s), '\n');
    }
  }

  // ----- a cleaned command

  predicate IsTerminator(c: char) {
    c == ';' || IsWhitespace(c)
  }

  function TrimTerminators(s: string): (r: string)
    ensures r <= s && (r != [] ==> !IsTerminator(r[|r| - 1]))
  {
    if s == [] || !IsTerminator(s[|s| - 1]) then s else TrimTerminators(s[..|s| - 1])
  }

  function Clean(text: string): string {
    TrimTerminators(Trim(Strip(text)))
  }

  method CleanCommand(text: string) returns (cleaned: string)
    ensures cleaned == Clean(text)
  {
    var stripped := StripJsComments(text);
    cleaned := TrimTerminators(Trim(stripped));
  }

  lemma {:induction false} CountAtMost(s: string, c: char)
    ensures Count(s, c) <= |s|
  {
    if s != [] {
      CountAtMost(s[1..], c);
    }
  }

  lemma BlockShrinks(block: string)
    requires OpensWith(block, '/', '*')
    ensures Count(block, '\n') + 1 < |block|
  {
    hide Count;
    CountConcat("/*", block[2..], '\n');
    CountAbsent("/*", '\n');
    CountAtMost(block[2..], '\n');
    assert block == "/*" + block[2..];
  }

  lemma BlockOpens(s: string)
    requires s != [] && First(s).BlockComment?
    ensures OpensWith(First(s).block, '/', '*')
  {
    hide BlockLength;
  }

  lemma CommentShrinks(s: string)
    requires s != []
    ensures |First(s).Kept()| <= |First(s).Source()|
    ensures IsComment(First(s)) ==> |First(s).Kept()| < |First(s).Source()|
  {
    LineIsThere(s);
    hide First, Count;
    var t := First(s);
    if t.BlockComment? {
      BlockOpens(s);
      BlockShrinks(t.block);
    }
  }

  lemma LineIsThere(s: string)
    requires s != []
    ensures First(s).Source() != []
  {
  }

  lemma {:induction false} StripShrinks(s: string)
    ensures |Strip(s)| <= |s|
  {
    if s != [] {
      StripShrinks(AfterFirst(s));
      CommentShrinks(s);
    }
  }

  /** Text that stripping leaves alone does not begin with a comment, nor does what follows. */
  lemma FixedHead(s: string)
    requires s != [] && Strip(s) == s
    ensures !IsComment(First(s)) && Strip(AfterFirst(s)) == AfterFirst(s)
  {
    StripShrinks(AfterFirst(s));
    CommentShrinks(s);
    assert Strip(s)[|First(s).Kept()|..] == Strip(AfterFirst(s));
  }

  /** A cut inside a literal leaves an unclosed literal, which is copied like a closed one. */
  lemma FixedCut(s: string, k: nat)
    requires s != [] && IsQuote(s[0]) && 0 < k <= |First(s).Source()|
    ensures Strip(s[..k]) == s[..k]
  {
    LiteralCut(s[0], s[1..], k - 1);
    assert s[..k][1..] == s[1..][..k - 1];
    assert First(s[..k]).Source() == s[..k];
  }

  lemma FixedJoin(s: string, tail: string)
    requires s != [] && !IsComment(First(s)) && (AfterFirst(s) == [] ==> tail == [])
    requires s[0] == '/' && tail != [] ==> tail[0] != '/' && tail[0] != '*'
    requires Strip(tail) == tail
    ensures Strip(First(s).Source() + tail) == First(s).Source() + tail
  {
    FirstAgain(s, tail);
  }

  lemma PrefixTokens(s: string, k: nat)
    requires s != [] && |First(s).Source()| <= k <= |s|
    ensures s[..k] == First(s).Source() + AfterFirst(s)[..k - |First(s).Source()|]
  {
    hide First;
  }

  /** A plain slash is not followed by what would make it open a comment. */
  lemma SlashAlone(s: string)
    requires s != [] && !IsComment(First(s)) && s[0] == '/'
    ensures AfterFirst(s) != [] ==> AfterFirst(s)[0] != '/' && AfterFirst(s)[0] != '*'
  {
    assert First(s) == Plain('/');
  }

  lemma PrefixStep(s: string, k: nat)
    requires s != [] && !IsComment(First(s)) && |First(s).Source()| <= k <= |s|
    requires var tail := AfterFirst(s)[..k - |First(s).Source()|]; Strip(tail) == tail
    ensures Strip(s[..k]) == s[..k]
  {
    hide Strip;
    var rest := AfterFirst(s);
    var tail := rest[..k - |First(s).Source()|];
    PrefixTokens(s, k);
    if s[0] == '/' {
      SlashAlone(s);
    }
    FixedJoin(s, tail);
  }

  lemma {:induction false} PrefixFixed(s: string, k: nat)
    requires Strip(s) == s && k <= |s|
    ensures Strip(s[..k]) == s[..k]
    decreases |s|
  {
    if k > 0 {
      FixedHead(s);
      var n := |First(s).Source()|;
      if k >= n {
        PrefixFixed(AfterFirst(s), k - n);
        PrefixStep(s, k);
      } else {
        FixedCut(s, k);
      }
    }
  }

  lemma FixedPrefix(s: string, p: string)
    requires Strip(s) == s && p <= s
    ensures Strip(p) == p
  {
    PrefixFixed(s, |p|);
    assert p == s[..|p|];
  }

  /** No token of the text is a comment. */
  predicate NoComments(s: string) {
    NoneIsComment(Tokens(s))
  }

  predicate NoneIsComment(tokens: seq<Token>) {
    forall i | 0 <= i < |tokens| :: !IsComment(tokens[i])
  }

  lemma NoneFirst(t: Token, rest: seq<Token>)
    ensures NoneIsComment([t] + rest) <==> !IsComment(t) && NoneIsComment(rest)
  {
    var all := [t] + rest;
    assert all[0] == t;
    assert forall i | 0 <= i < |rest| :: rest[i] == all[i + 1];
  }

  lemma NoCommentsFirst(s: string)
    requires s != []
    ensures NoComments(s) <==> !IsComment(First(s)) && NoComments(AfterFirst(s))
  {
    NoneFirst(First(s), Tokens(AfterFirst(s)));
  }

  /** Text without comments is exactly what stripping leaves alone. */
  lemma {:induction false} NoCommentsIff(s: string)
    ensures NoComments(s) <==> Strip(s) == s
  {
    if s != [] {
      hide NoComments, First, AfterFirst;
      NoCommentsFirst(s);
      NoCommentsIff(AfterFirst(s));
      if Strip(s) == s {
        FixedHead(s);
      }
    }
  }

  predicate PlainText(s: string) {
    forall k | 0 <= k < |s| :: !IsQuote(s[k]) && s[k] != '/'
  }

  lemma PlainHasNoComments(s: string)
    requires PlainText(s)
    ensures NoComments(s)
  {
    hide Strip, NoComments;
    PlainPrefix(s, "");
    StripNothing();
    NoCommentsIff(s);
    assert s + "" == s && s + Strip("") == s;
  }

  predicate QuoteFree(s: string) {
    forall i | 0 <= i < |s| :: !IsQuote(s[i])
  }

  /** Two characters that begin a comment stand in the text. */
  predicate OpensComment(s: string) {
    exists i | 0 <= i < |s| - 1 :: s[i] == '/' && (s[i + 1] == '/' || s[i + 1] == '*')
  }

  /** Text without quotes and comment openers is passed over, whatever follows. */
  lemma {:induction false} QuoteFreePrefix(p: string, s: string)
    requires QuoteFree(p) && !OpensComment(p) && (s != [] ==> s[0] != '/' && s[0] != '*')
    ensures Strip(p + s) == p + Strip(s)
  {
    if p == [] {
      assert p + s == s && p + Strip(s) == Strip(s);
    } else {
      OpenerFurther(p);
      QuoteFreePrefix(p[1..], s);
      HeadFirst(p, s);
      HeadFirst(p, Strip(s));
      PlainSlash(p, s);
    }
  }

  lemma OpenerFurther(p: string)
    requires p != []
    ensures OpensComment(p) <==> OpensWith(p, '/', '/') || OpensWith(p, '/', '*') || OpensComment(p[1..])
  {
    if OpensComment(p[1..]) {
      var i :| 0 <= i < |p| - 2 && p[1..][i] == '/' && (p[1..][i + 1] == '/' || p[1..][i + 1] == '*');
      assert p[i + 1] == '/' && (p[i + 2] == '/' || p[i + 2] == '*');
    }
    if OpensComment(p) && !OpensWith(p, '/', '/') && !OpensWith(p, '/', '*') {
      var i :| 0 <= i < |p| - 1 && p[i] == '/' && (p[i + 1] == '/' || p[i + 1] == '*');
      assert p[1..][i - 1] == '/';
    }
    if OpensWith(p, '/', '/') || OpensWith(p, '/', '*') {
      assert p[0] == '/' && (p[0 + 1] == '/' || p[0 + 1] == '*');
    }
  }

  lemma PlainSlash(p: string, s: string)
    requires p != [] && !IsQuote(p[0]) && !OpensWith(p, '/', '/') && !OpensWith(p, '/', '*')
    requires s != [] ==> s[0] != '/' && s[0] != '*'
    ensures Strip([p[0]] + (p[1..] + s)) == [p[0]] + Strip(p[1..] + s)
  {
    var rest := p[1..] + s;
    assert First([p[0]] + rest) == Plain(p[0]);
    assert AfterFirst([p[0]] + rest) == rest;
  }

  /** A comment opener in text without quotes does open a comment. */
  lemma {:induction false} QuoteFreeComment(p: string, s: string)
    requires QuoteFree(p) && OpensComment(p)
    ensures Strip(p + s) != p + s
  {
    OpenerFurther(p);
    HeadFirst(p, s);
    if Strip(p + s) == p + s {
      FixedHead(p + s);
      assert First(p + s) == Plain(p[0]);
      assert AfterFirst(p + s) == p[1..] + s;
      QuoteFreeComment(p[1..], s);
    }
  }

  lemma {:induction false} TrimStartFixed(s: string)
    requires Strip(s) == s
    ensures Strip(TrimStart(s)) == TrimStart(s)
  {
    if s != [] && IsWhitespace(s[0]) {
      FixedHead(s);
      assert AfterFirst(s) == s[1..];
      TrimStartFixed(s[1..]);
    }
  }

  lemma TrimmedTwice(s: string)
    ensures TrimStart(TrimStart(s)) == TrimStart(s)
    ensures s != [] && !IsWhitespace(s[|s| - 1]) ==> TrimEnd(s) == s
    ensures s != [] && !IsTerminator(s[|s| - 1]) ==> TrimTerminators(s) == s
  {
  }

  lemma PrefixOfPrefix(a: string, b: string, c: string)
    requires a <= b <= c
    ensures a <= c && (a != [] ==> a[0] == c[0])
  {
  }

  lemma CleanedIsTrimmed(c: string)
    requires c != [] ==> !IsWhitespace(c[0]) && !IsTerminator(c[|c| - 1])
    ensures TrimTerminators(Trim(c)) == c
  {
    TrimmedTwice(c);
  }

  lemma CleanedEdges(s: string)
    ensures var c := TrimTerminators(Trim(s));
      && c <= TrimStart(s)
      && (c != [] ==> !IsWhitespace(c[0]) && !IsTerminator(c[|c| - 1]))
  {
    PrefixOfPrefix(TrimTerminators(Trim(s)), Trim(s), TrimStart(s));
  }

  /** Cleaning a command again changes nothing, however often it is passed on. */
  lemma CleanIdempotent(text: string)
    ensures Clean(Clean(text)) == Clean(text)
    ensures Strip(Clean(text)) == Clean(text)
  {
    StripIdempotent(text);
    TrimStartFixed(Strip(text));
    CleanedEdges(Strip(text));
    FixedPrefix(TrimStart(Strip(text)), Clean(text));
    CleanedIsTrimmed(Clean(text));
  }
}
