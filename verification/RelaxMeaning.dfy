/** What relaxing does to the text of every relaxed JSON tree: it becomes the text of the tree's
    strict form. */
module RelaxMeaning {
  import opened Text
  import opened JsonSyntax
  import opened RelaxJson
  import JsComments

  /** In front of `tail`, and after output whose last ink is `prev`, `text` becomes `out`. */
  predicate Becomes(u: Unicode, prev: Option<char>, text: string, out: string, tail: string) {
    RelaxFrom(u, text + tail, prev) == out + RelaxFrom(u, tail, LastInk(prev, out))
  }

  lemma Chain(u: Unicode, prev: Option<char>, a: string, out: string, b: string, more: string, tail: string)
    requires Becomes(u, prev, a, out, b + tail) && Becomes(u, LastInk(prev, out), b, more, tail)
    ensures Becomes(u, prev, a + b, out + more, tail)
  {
    hide RelaxFrom, LastInk;
    LastInkConcat(prev, out, more);
    assert a + b + tail == a + (b + tail);
    assert out + more + RelaxFrom(u, tail, LastInk(prev, out + more))
      == out + (more + RelaxFrom(u, tail, LastInk(prev, out + more)));
  }

  lemma OnePiece(u: Unicode, prev: Option<char>, s: string, out: string, tail: string)
    requires s != "" && NextPiece(u, s + tail, prev) == Piece(out, |s|)
    ensures Becomes(u, prev, s, out, tail)
  {
    hide NextPiece, LastInk;
    assert (s + tail)[|s|..] == tail;
  }

  // ----- whitespace, punctuation and commas

  lemma PlainChar(u: Unicode, prev: Option<char>, c: char, tail: string)
    requires c != '"' && c != '\'' && c != ',' && !StartsWord(u, c)
    ensures Becomes(u, prev, [c], [c], tail)
  {
    OnePiece(u, prev, [c], [c], tail);
  }

  lemma PunctuationIsPlain(u: Unicode, c: char)
    requires Coherent(u) && c in " \t\n\r[]{}:-+.0123456789"
    ensures c != '"' && c != '\'' && c != ',' && !StartsWord(u, c)
  {
    AsciiChar(u, c);
  }

  lemma NothingStays(u: Unicode, prev: Option<char>, tail: string)
    ensures Becomes(u, prev, "", "", tail) && LastInk(prev, "") == prev
  {
    assert "" + tail == tail;
  }

  lemma SpaceFirst(u: Unicode, prev: Option<char>, c: char, rest: string, tail: string)
    requires Coherent(u) && IsSpace([c]) && Becomes(u, prev, rest, rest, tail)
    ensures Becomes(u, prev, [c] + rest, [c] + rest, tail)
  {
    hide Becomes, LastInk, Coherent, IsWhitespace;
    assert [c][0] == c;
    PunctuationIsPlain(u, c);
    PlainChar(u, prev, c, rest + tail);
    LastInkOfSpace(prev, [c]);
    Chain(u, prev, [c], [c], rest, rest, tail);
  }

  lemma {:induction false} SpaceStays(u: Unicode, prev: Option<char>, space: string, tail: string)
    requires Coherent(u) && IsSpace(space)
    ensures Becomes(u, prev, space, space, tail) && LastInk(prev, space) == prev
  {
    hide Becomes, LastInk, Coherent;
    LastInkOfSpace(prev, space);
    if space == "" {
      NothingStays(u, prev, tail);
    } else {
      SpaceStays(u, prev, space[1..], tail);
      SpaceFirst(u, prev, space[0], space[1..], tail);
      assert space == [space[0]] + space[1..];
    }
  }

  lemma LastInkOfSpace(prev: Option<char>, space: string)
    requires IsSpace(space)
    ensures LastInk(prev, space) == prev
  {
    LastInkOfBlank(prev, space);
  }

  lemma CommaBecomes(u: Unicode, prev: Option<char>, tail: string)
    requires Coherent(u)
    ensures Becomes(u, prev, ",", CommaPiece(NextInk(tail)).text, tail)
  {
    AsciiChar(u, ',');
    assert ("," + tail)[1..] == tail;
    OnePiece(u, prev, ",", CommaPiece(NextInk(tail)).text, tail);
  }

  lemma {:induction false} InkAfterSpace(space: string, rest: string)
    requires IsSpace(space)
    ensures NextInk(space + rest) == NextInk(rest)
  {
    if space == "" {
      assert space + rest == rest;
    } else {
      assert (space + rest)[1..] == space[1..] + rest;
      InkAfterSpace(space[1..], rest);
    }
  }

  // ----- string literals

  lemma DoublePieceIs(u: Unicode, prev: Option<char>, s: string, n: nat)
    requires JsComments.LiteralLength('"', s) == n
    ensures NextPiece(u, "\"" + s, prev) == Piece(("\"" + s)[..n + 1], n + 1)
  {
    hide JsComments.LiteralLength, WordPiece, NextInk;
    assert ("\"" + s)[1..] == s;
  }

  lemma DoubleLiteral(u: Unicode, prev: Option<char>, lit: Lit, tail: string)
    requires WfLit(lit) && lit.quote == '"'
    ensures Becomes(u, prev, LitText(lit), LitText(lit), tail)
  {
    hide JsComments.LiteralLength, NextPiece, UnitsText, RelaxFrom, LastInk;
    var inside := UnitsText(lit.units) + ['"'] + tail;
    UnitsClose('"', lit.units);
    JsComments.LiteralCloses('"', UnitsText(lit.units), tail);
    DoublePieceIs(u, prev, inside, |UnitsText(lit.units)| + 1);
    assert LitText(lit) + tail == "\"" + inside;
    assert (LitText(lit) + tail)[..|LitText(lit)|] == LitText(lit);
    OnePiece(u, prev, LitText(lit), LitText(lit), tail);
  }

  lemma PlainUnit(c: char, rest: string)
    requires c != '\\' && c != '\'' && c != '"'
    ensures var q := SingleQuoted(rest); SingleQuoted([c] + rest) == Piece([c] + q.text, 1 + q.used)
  {
    assert ([c] + rest)[1..] == rest;
  }

  lemma {:induction false} PlainRun(s: string, rest: string)
    requires forall i | 0 <= i < |s| :: s[i] != '\\' && s[i] != '\'' && s[i] != '"'
    ensures var q := SingleQuoted(rest); SingleQuoted(s + rest) == Piece(s + q.text, |s| + q.used)
  {
    hide SingleQuoted;
    var q := SingleQuoted(rest);
    if s == "" {
      assert s + rest == rest && s + q.text == q.text;
    } else {
      PlainRun(s[1..], rest);
      PlainUnit(s[0], s[1..] + rest);
      assert s + rest == [s[0]] + (s[1..] + rest);
      assert s + q.text == [s[0]] + (s[1..] + q.text);
    }
  }

  lemma EscapeRequoted(c: char, rest: string)
    ensures var q := SingleQuoted(rest);
      SingleQuoted(['\\', c] + rest) == Piece((if c == '\'' then "'" else ['\\', c]) + q.text, 2 + q.used)
  {
    assert (['\\', c] + rest)[2..] == rest;
  }

  lemma HexRequoted(hex: string, rest: string)
    requires forall i | 0 <= i < |hex| :: IsHexDigit(hex[i])
    ensures var q := SingleQuoted(rest);
      SingleQuoted("\\u" + hex + rest) == Piece("\\u" + hex + q.text, 2 + |hex| + q.used)
  {
    hide SingleQuoted;
    var q := SingleQuoted(rest);
    PlainRun(hex, rest);
    EscapeRequoted('u', hex + rest);
    assert "\\u" + hex + rest == ['\\', 'u'] + (hex + rest);
    assert "\\u" + hex + q.text == ['\\', 'u'] + (hex + q.text);
  }

  lemma CharRequoted(c: char, rest: string)
    requires c != '\\' && c != '\''
    ensures var q := SingleQuoted(rest);
      SingleQuoted([c] + rest) == Piece((if c == '"' then "\\\"" else [c]) + q.text, 1 + q.used)
  {
    assert ([c] + rest)[1..] == rest;
  }

  lemma UnitRequoted(un: Unit, rest: string)
    requires ValidUnit('\'', un)
    ensures var q := SingleQuoted(rest);
      SingleQuoted(UnitText(un) + rest) == Piece(UnitText(StrictUnit('\'', un)) + q.text, |UnitText(un)| + q.used)
  {
    hide SingleQuoted;
    match un
    case Chr(c) => CharRequoted(c, rest);
    case Esc(letter) => EscapeRequoted(letter, rest);
    case Uni(hex) => HexRequoted(hex, rest);
  }

  lemma StrictUnits(lit: Lit)
    requires lit.units != []
    ensures UnitsText(StrictLit(lit).units)
      == UnitText(StrictUnit(lit.quote, lit.units[0])) + UnitsText(StrictLit(Lit(lit.quote, lit.units[1..])).units)
  {
    assert StrictLit(lit).units[1..] == StrictLit(Lit(lit.quote, lit.units[1..])).units;
  }

  lemma UnitsFirst(units: seq<Unit>, end: string)
    requires units != []
    ensures UnitsText(units) + end == UnitText(units[0]) + (UnitsText(units[1..]) + end)
  {
  }

  lemma {:induction false} UnitsRequoted(lit: Lit, tail: string)
    requires WfLit(lit) && lit.quote == '\''
    ensures SingleQuoted(UnitsText(lit.units) + ("'" + tail))
      == Piece(UnitsText(StrictLit(lit).units), |UnitsText(lit.units)| + 1)
    decreases |lit.units|
  {
    if lit.units == [] {
      assert UnitsText(lit.units) + ("'" + tail) == "'" + tail;
    } else {
      var less := Lit('\'', lit.units[1..]);
      UnitsRequoted(less, tail);
      UnitRequoted(lit.units[0], UnitsText(less.units) + ("'" + tail));
      UnitsFirst(lit.units, "'" + tail);
      StrictUnits(lit);
    }
  }

  lemma SinglePieceIs(u: Unicode, prev: Option<char>, s: string, text: string, n: nat)
    requires SingleQuoted(s) == Piece(text, n)
    ensures NextPiece(u, "'" + s, prev) == Piece("\"" + text + "\"", n + 1)
  {
    hide SingleQuoted, WordPiece, NextInk;
    assert ("'" + s)[1..] == s;
  }

  lemma SingleLiteral(u: Unicode, prev: Option<char>, lit: Lit, tail: string)
    requires WfLit(lit) && lit.quote == '\''
    ensures Becomes(u, prev, LitText(lit), LitText(StrictLit(lit)), tail)
  {
    hide SingleQuoted, NextPiece, UnitsText, RelaxFrom, LastInk;
    UnitsRequoted(lit, tail);
    var inside := UnitsText(lit.units) + ("'" + tail);
    SinglePieceIs(u, prev, inside, UnitsText(StrictLit(lit).units), |UnitsText(lit.units)| + 1);
    assert LitText(lit) + tail == "'" + inside;
    OnePiece(u, prev, LitText(lit), LitText(StrictLit(lit)), tail);
  }

  lemma LiteralBecomes(u: Unicode, prev: Option<char>, lit: Lit, tail: string)
    requires WfLit(lit)
    ensures Becomes(u, prev, LitText(lit), LitText(StrictLit(lit)), tail)
  {
    if lit.quote == '"' {
      StrictLitCodes(lit);
      DoubleLiteral(u, prev, lit, tail);
    } else {
      SingleLiteral(u, prev, lit, tail);
    }
  }

  // ----- words, keys and constructor calls

  lemma {:induction false} WordEnds(u: Unicode, word: string, rest: string)
    requires forall i | 0 <= i < |word| :: InWord(u, word[i])
    requires rest != "" ==> !InWord(u, rest[0])
    ensures WordLength(u, word + rest) == |word|
  {
    if word == "" {
      assert word + rest == rest;
    } else {
      assert (word + rest)[1..] == word[1..] + rest;
      WordEnds(u, word[1..], rest);
    }
  }

  /** What a word becomes when a character that is not in a word, or the end, follows it. */
  lemma WordBecomes(u: Unicode, prev: Option<char>, word: string, out: string, rest: string)
    requires IsIdentifier(u, word) && (rest != "" ==> !InWord(u, rest[0]))
    requires word[0] != '"' && word[0] != '\''
    requires ConstructorCall(word, rest).None?
    requires out == if IsKeyPlace(prev, NextInk(rest)) then "\"" + word + "\"" else word
    ensures Becomes(u, prev, word, out, rest)
  {
    hide CallArgument, NextInk, LastInk;
    WordEnds(u, word, rest);
    var s := word + rest;
    assert s[..|word|] == word && s[|word|..] == rest;
    WordPieceParts(u, s, prev, word, rest);
    OnePiece(u, prev, word, out, rest);
  }

  lemma {:induction false} SpaceEnds(space: string, rest: string)
    requires IsSpace(space) && (rest != "" ==> !IsWhitespace(rest[0]))
    ensures SpaceLength(space + rest) == |space|
  {
    if space == "" {
      assert space + rest == rest;
    } else {
      assert (space + rest)[1..] == space[1..] + rest;
      SpaceEnds(space[1..], rest);
    }
  }

  /** After an unquoted key comes its colon, and that is not the call of a constructor. */
  lemma NoCallBeforeColon(name: string, colon: string, rest: string)
    requires IsSpace(colon)
    ensures ConstructorCall(name, colon + (":" + rest)).None?
    ensures NextInk(colon + (":" + rest)) == Some(':')
  {
    hide Replacement, UpToParen, IsCtorName;
    SpaceEnds(colon, ":" + rest);
    InkAfterSpace(colon, ":" + rest);
  }

  lemma WordIsNotSpace(u: Unicode, c: char)
    requires Coherent(u) && (InWord(u, c) || StartsWord(u, c))
    ensures !IsWhitespace(c) && c != '"' && c != '\'' && c != ':' && c != ',' && c !in "{}[]()"
  {
    if c < '\U{0080}' {
      AsciiChar(u, c);
    }
  }

  /** Whitespace or one of the characters around values does not continue a word. */
  predicate EndsWord(s: string) {
    s != "" ==> s[0] in " \t\n\r,:]})("
  }

  lemma NotInWord(u: Unicode, s: string)
    requires Coherent(u) && EndsWord(s) && s != ""
    ensures !InWord(u, s[0])
  {
    AsciiChar(u, s[0]);
  }

  lemma SpaceThenEnds(space: string, rest: string)
    requires IsSpace(space) && EndsWord(rest)
    ensures EndsWord(space + rest)
  {
    if space == "" {
      assert space + rest == rest;
    }
  }

  lemma BareKeyBecomes(u: Unicode, prev: Option<char>, name: string, colon: string, rest: string)
    requires Coherent(u) && IsIdentifier(u, name) && IsSpace(colon) && (prev == Some('{') || prev == Some(','))
    ensures Becomes(u, prev, name, "\"" + name + "\"", colon + (":" + rest))
  {
    hide ConstructorCall, RelaxFrom, LastInk, NextInk;
    var tail := colon + (":" + rest);
    NoCallBeforeColon(name, colon, rest);
    SpaceThenEnds(colon, ":" + rest);
    NotInWord(u, tail);
    WordIsNotSpace(u, name[0]);
    WordBecomes(u, prev, name, "\"" + name + "\"", tail);
  }

  lemma {:induction false} PlainUnitsText(text: string)
    ensures UnitsText(PlainLit(text).units) == text
  {
    if text != "" {
      PlainUnitsText(text[1..]);
      assert PlainLit(text).units[1..] == PlainLit(text[1..]).units;
      assert text == [text[0]] + text[1..];
    }
  }

  lemma KeyBecomes(u: Unicode, prev: Option<char>, key: Key, colon: string, rest: string)
    requires Coherent(u) && WfKey(u, key) && IsSpace(colon) && (prev == Some('{') || prev == Some(','))
    ensures Becomes(u, prev, KeyText(key), KeyText(StrictKey(key)), colon + (":" + rest))
  {
    hide Becomes, LastInk, UnitsText;
    match key
    case Bare(name) =>
      BareKeyBecomes(u, prev, name, colon, rest);
      PlainUnitsText(name);
      assert LitText(PlainLit(name)) == "\"" + name + "\"";
    case Named(lit) => LiteralBecomes(u, prev, lit, colon + (":" + rest));
  }

  /** What may follow a value: not the rest of a word, and not a colon. */
  predicate AfterValue(tail: string) {
    EndsWord(tail) && NextInk(tail) != Some(':')
  }

  lemma LetterIsWord(u: Unicode, c: char)
    requires Coherent(u) && IsLetter(c)
    ensures StartsWord(u, c) && InWord(u, c)
  {
    AsciiChar(u, c);
  }

  lemma LettersAreWord(u: Unicode, word: string)
    requires Coherent(u) && word != "" && forall i | 0 <= i < |word| :: IsLetter(word[i])
    ensures IsIdentifier(u, word)
  {
    forall i | 0 <= i < |word| ensures InWord(u, word[i]) {
      LetterIsWord(u, word[i]);
    }
    LetterIsWord(u, word[0]);
  }

  lemma ConstantBecomes(u: Unicode, prev: Option<char>, word: string, tail: string)
    requires Coherent(u) && (word == "true" || word == "false" || word == "null") && AfterValue(tail)
    ensures Becomes(u, prev, word, word, tail)
  {
    hide CallArgument, RelaxFrom, LastInk;
    LettersAreWord(u, word);
    if tail != "" {
      NotInWord(u, tail);
    }
    WordBecomes(u, prev, word, word, tail);
  }

  // ----- constructor calls

  lemma ReplacementText(word: string, literal: string)
    requires IsCtorName(word)
    ensures Replacement(word, literal) == Render(CtorJson(word, literal))
  {
    match CtorKey(word)
    case None =>
    case Some(key) =>
      var m := ExtMember(key, literal);
      PlainUnitsText(key);
      var text := LitText(StringLit(literal));
      assert RenderMember(m) == "" + ("\"" + key + "\"" + ("" + (":" + (" " + (text + "")))));
      ExtMemberText(key, text);
      assert RenderMembers(LastMember(m)) == RenderMember(m);
  }

  lemma ExtMemberText(key: string, text: string)
    ensures "{" + ("" + ("\"" + key + "\"" + ("" + (":" + (" " + (text + ""))))) + "}")
      == "{\"" + key + "\": " + text + "}"
  {
  }

  lemma ArgLiteral(arg: CtorArg)
    requires WfArg(arg)
    ensures PlainLiteral(ArgText(arg)) == Some(ArgContent(arg))
    ensures ')' !in ArgText(arg) && Trimmed(ArgText(arg)) && ArgText(arg) != ""
  {
    match arg
    case QuotedArg(quote, body) =>
      var text := [quote] + body + [quote];
      assert text[1..|text| - 1] == body;
    case BareArg(number) =>
  }

  lemma SpaceIsBlank(s: string)
    requires IsSpace(s)
    ensures IsBlank(s) && ')' !in s
  {
  }

  lemma BodyLiteral(before: string, arg: CtorArg, after: string, rest: string)
    requires WfArg(arg) && IsSpace(before) && IsSpace(after)
    ensures var body := before + ArgText(arg) + after;
      UpToParen(body + ")" + rest) == Some(Piece(ArgContent(arg), |body| + 1))
  {
    hide PlainLiteral, Trim, IsSpace, IsBlank, WfArg, Find, ArgContent;
    var body := before + ArgText(arg) + after;
    ArgLiteral(arg);
    SpaceIsBlank(before);
    SpaceIsBlank(after);
    TrimPadded(before, ArgText(arg), after);
    FindAfter(body, ')', rest);
    assert (body + ")" + rest)[..|body|] == body;
  }

  lemma CallInParens(gap: string, body: string, rest: string, literal: string)
    requires IsSpace(gap) && UpToParen(body + ")" + rest) == Some(Piece(literal, |body| + 1))
    ensures CallArgument(gap + ("(" + (body + ")")) + rest) == Some(Piece(literal, |gap| + 1 + |body| + 1))
  {
    hide UpToParen;
    var s := gap + ("(" + (body + ")")) + rest;
    SpaceEnds(gap, "(" + (body + ")" + rest));
    assert s == gap + ("(" + (body + ")" + rest));
    assert s[|gap| + 1..] == body + ")" + rest;
  }

  lemma CtorPiece(u: Unicode, prev: Option<char>, name: string, call: string, content: string, tail: string)
    requires Coherent(u) && IsIdentifier(u, name) && IsCtorName(name) && EndsWord(call) && call != ""
    requires CallArgument(call + tail) == Some(Piece(content, |call|))
    ensures Becomes(u, prev, name + call, Replacement(name, content), tail)
  {
    hide CallArgument, Replacement, IsCtorName, LastInk, NextInk, RelaxFrom;
    var s := name + call + tail;
    NotInWord(u, call);
    WordEnds(u, name, call + tail);
    assert s == name + (call + tail);
    assert s[..|name|] == name && s[|name|..] == call + tail;
    WordPieceParts(u, s, prev, name, call + tail);
    WordIsNotSpace(u, name[0]);
    OnePiece(u, prev, name + call, Replacement(name, content), tail);
  }

  lemma CtorNameIsWord(u: Unicode, name: string)
    requires Coherent(u) && IsCtorName(name)
    ensures IsIdentifier(u, name)
  {
    assert name != "" && forall i | 0 <= i < |name| :: IsLetter(name[i]);
    LettersAreWord(u, name);
  }

  lemma CtorBecomes(u: Unicode, prev: Option<char>, v: Json, tail: string)
    requires Coherent(u) && Wf(u, v) && v.Ctor?
    ensures Becomes(u, prev, Render(v), Render(Strict(v)), tail)
  {
    hide CallArgument, UpToParen, Replacement, IsCtorName, Becomes, Coherent;
    var body := v.before + ArgText(v.arg) + v.after;
    BodyLiteral(v.before, v.arg, v.after, tail);
    CallInParens(v.gap, body, tail, ArgContent(v.arg));
    CtorNameIsWord(u, v.name);
    SpaceThenEnds(v.gap, "(" + (body + ")"));
    CtorPiece(u, prev, v.name, v.gap + ("(" + (body + ")")), ArgContent(v.arg), tail);
    ReplacementText(v.name, ArgContent(v.arg));
  }

  lemma {:induction false} FirstParen(a: string, b: string)
    requires ')' in a
    ensures Find(a + b, ')').Some? && Find(a + b, ')').value < |a|
  {
    assert a == [a[0]] + a[1..];
    if a[0] != ')' {
      FirstParen(a[1..], b);
      assert (a + b)[1..] == a[1..] + b;
    }
  }

  /** A call with a quoted argument is read as that constructor exactly when no closing parenthesis
      stands between the quotes. */
  lemma CallReadIff(name: string, quote: char, body: string, rest: string)
    requires IsCtorName(name) && (quote == '"' || quote == '\'')
    ensures var call := ConstructorCall(name, "(" + ([quote] + body + [quote]) + ")" + rest);
      call == Some(Piece(Replacement(name, body), |body| + 4)) <==> ')' !in body
  {
    hide Replacement, IsCtorName, PlainLiteral, Trim, Find;
    var text := [quote] + body + [quote];
    var s := "(" + text + ")" + rest;
    assert s[1..] == text + (")" + rest);
    assert SpaceLength(s) == 0;
    if ')' in body {
      var inner := [quote] + body;
      assert body[0..] == body && inner[1..] == body;
      FirstParen(inner, [quote] + (")" + rest));
      assert inner + ([quote] + (")" + rest)) == text + (")" + rest);
    } else {
      BodyLiteral("", QuotedArg(quote, body), "", rest);
      assert "" + text + "" == text;
      assert text + ")" + rest == text + (")" + rest);
    }
  }

  // ----- exactly which quoted calls become what they are written as

  lemma InnerPart(quote: char, front: string, n: nat)
    requires 2 <= n <= |front| + 1
    ensures ([quote] + front)[..n][1..n - 1] == front[..n - 2]
    ensures front[n - 2] == quote ==> front[..n - 2] + [quote] <= front
  {
    assert ([quote] + front)[..n] == [quote] + front[..n - 1];
    assert ([quote] + front[..n - 1])[1..n - 1] == front[..n - 2];
    assert front[..n - 1] == front[..n - 2] + [front[n - 2]];
  }

  /** `literal` is what stands between the opening quote and a quote in front of the first closing
      parenthesis. */
  lemma ShortLiteral(quote: char, front: string)
    requires quote == '"' || quote == '\''
    ensures var literal := PlainLiteral(Trim([quote] + front));
      literal.Some? ==> literal.value + [quote] <= front
  {
    var inside := [quote] + front;
    assert TrimStart(inside) == inside;
    var inner := TrimEnd(inside);
    assert inner <= inside;
    if |inner| >= 2 && inner[|inner| - 1] == quote {
      InnerPart(quote, front, |inner|);
      assert inner == inside[..|inner|];
    }
  }

  /** A call that is cut at a closing parenthesis in its body: the shorter call is read, or none. */
  lemma CutCall(u: Unicode, quote: char, body: string, tail: string) returns (k: nat)
    requires (quote == '"' || quote == '\'') && ')' in body
    ensures k < |body| && body[k] == ')'
    ensures var text, literal := "(" + ([quote] + body + [quote]) + ")" + tail, PlainLiteral(Trim([quote] + body[..k]));
      CallArgument(text) == (if literal.None? then None else Some(Piece(literal.value, k + 3)))
  {
    hide PlainLiteral, Trim;
    var text := "(" + ([quote] + body + [quote]) + ")" + tail;
    k := Find(body, ')').value;
    var front, back := [quote] + body[..k], body[k + 1..] + [quote] + ")" + tail;
    FindAfter(front, ')', back);
    assert text[1..] == front + [')'] + back;
    assert (front + [')'] + back)[..|front|] == front;
    assert SpaceLength(text) == 0;
  }

  lemma {:induction false} StringConcat(a: string, b: string)
    ensures UnitsText(StringLit(a + b).units) == UnitsText(StringLit(a).units) + UnitsText(StringLit(b).units)
  {
    hide UnitsText, StringLit, CharUnit, UnitText;
    if a == "" {
      assert a + b == b;
      StringNothing();
    } else {
      assert (a + b)[1..] == a[1..] + b;
      StringFirst(a + b);
      StringFirst(a);
      StringConcat(a[1..], b);
    }
  }

  lemma StringNothing()
    ensures UnitsText(StringLit("").units) == ""
  {
  }

  lemma StringFirst(s: string)
    requires s != ""
    ensures UnitsText(StringLit(s).units) == UnitText(CharUnit(s[0])) + UnitsText(StringLit(s[1..]).units)
  {
    assert StringLit(s).units[1..] == StringLit(s[1..]).units;
  }

  /** A string without quotes, backslashes and control characters is written as it is. */
  lemma CharText(c: char)
    requires c != '"' && c != '\\' && c >= ' '
    ensures UnitText(CharUnit(c)) == [c]
  {
  }

  lemma {:induction false} PlainString(s: string)
    requires forall i | 0 <= i < |s| :: s[i] != '"' && s[i] != '\\' && s[i] >= ' '
    ensures UnitsText(StringLit(s).units) == s
  {
    hide StringLit, UnitsText;
    if s == "" {
      StringNothing();
    } else {
      StringFirst(s);
      CharText(s[0]);
      PlainString(s[1..]);
      assert s == [s[0]] + s[1..];
    }
  }

  /** The text of a string that goes on with a quote does not start with the closed text of a shorter one. */
  lemma LongerString(literal: string, quote: char, body: string, head: string, x: string)
    requires (quote == '"' || quote == '\'') && literal + [quote] <= body
    ensures !(head + LitText(StringLit(body)) + "}" <= head + LitText(StringLit(literal)) + "}" + x)
  {
    hide UnitsText;
    var more := body[|literal| + 1..];
    var same := UnitsText(StringLit(literal).units);
    assert body == literal + ([quote] + more);
    StringConcat(literal, [quote] + more);
    StringFirst([quote] + more);
    assert ([quote] + more)[1..] == more;
    var at := |head| + 1 + |same|;
    var a, b := head + LitText(StringLit(body)) + "}", head + LitText(StringLit(literal)) + "}" + x;
    assert b[at] == '"';
    assert a[at] == UnitText(CharUnit(quote))[0];
  }

  lemma NameStays(u: Unicode, prev: Option<char>, name: string, rest: string)
    requires Coherent(u) && IsCtorName(name) && rest != "" && rest[0] == '(' && CallArgument(rest).None?
    ensures Becomes(u, prev, name, name, rest)
  {
    hide CallArgument, Becomes, LastInk, IsCtorName, Coherent, IsIdentifier;
    CtorNameIsWord(u, name);
    NotInWord(u, rest);
    assert ConstructorCall(name, rest).None? && NextInk(rest) == Some('(');
    WordIsNotSpace(u, name[0]) by { assert IsIdentifier(u, name); WordStarts(u, name); }
    WordBecomes(u, prev, name, name, rest);
  }

  lemma WordStarts(u: Unicode, word: string)
    requires IsIdentifier(u, word)
    ensures word != "" && StartsWord(u, word[0])
  {
  }

  lemma UnreadDiffers(u: Unicode, prev: Option<char>, name: string, body: string, call: string)
    requires Coherent(u) && CtorKey(name).Some? && call != "" && call[0] == '(' && CallArgument(call).None?
    ensures !(Render(CtorJson(name, body)) <= RelaxFrom(u, name + call, prev))
  {
    hide CallArgument, RelaxFrom, Coherent, CtorJson, Render, CtorKey, Becomes;
    CtorNameLetter(name);
    NameStays(u, prev, name, call);
    NameDiffers(u, prev, name, body, call);
  }

  lemma ShortReadDiffers(u: Unicode, prev: Option<char>, name: string, quote: char, body: string, literal: string,
                         call: string, rest: string)
    requires Coherent(u) && CtorKey(name).Some? && (quote == '"' || quote == '\'') && literal + [quote] <= body
    requires call != "" && call[0] == '(' && CallArgument(call + rest) == Some(Piece(literal, |call|))
    ensures !(Render(CtorJson(name, body)) <= RelaxFrom(u, name + call + rest, prev))
  {
    hide CallArgument, RelaxFrom, Coherent, CtorJson, Render, CtorKey, Replacement;
    CtorNameLetter(name);
    CtorNameIsWord(u, name);
    CtorPiece(u, prev, name, call, literal, rest);
    ShortCallDiffers(name, literal, quote, body, RelaxFrom(u, rest, LastInk(prev, Replacement(name, literal))));
  }

  /** What is written for a call with a closing parenthesis between its quotes does not even begin with
      the Extended JSON that the call stands for. */
  lemma CutCallDiffers(u: Unicode, prev: Option<char>, name: string, quote: char, body: string, tail: string)
    requires Coherent(u) && CtorKey(name).Some? && (quote == '"' || quote == '\'') && ')' in body
    ensures var call := "(" + ([quote] + body + [quote]) + ")";
      !(Render(CtorJson(name, body)) <= RelaxFrom(u, name + call + tail, prev))
  {
    hide *;
    var call := "(" + ([quote] + body + [quote]) + ")";
    var k := CutCall(u, quote, body, tail);
    var front := [quote] + body[..k];
    var literal := PlainLiteral(Trim(front));
    if literal.None? {
      Assoc(name, call, tail);
      UnreadDiffers(u, prev, name, body, call + tail);
    } else {
      var short, rest := "(" + front + ")", body[k + 1..] + [quote] + ")" + tail;
      CutParts(quote, body, k, tail);
      Assoc(name, call, tail);
      Assoc(name, short, rest);
      ShortLiteral(quote, body[..k]);
      ShortReadDiffers(u, prev, name, quote, body, literal.value, short, rest);
    }
  }

  lemma NameDiffers(u: Unicode, prev: Option<char>, name: string, body: string, rest: string)
    requires CtorKey(name).Some? && Becomes(u, prev, name, name, rest)
    ensures !(Render(CtorJson(name, body)) <= RelaxFrom(u, name + rest, prev))
  {
    hide RelaxFrom, LastInk;
    CtorNameLetter(name);
    ReplacementText(name, body);
    assert RelaxFrom(u, name + rest, prev)[0] == name[0];
  }

  lemma ShortCallDiffers(name: string, literal: string, quote: char, body: string, x: string)
    requires CtorKey(name).Some? && (quote == '"' || quote == '\'') && literal + [quote] <= body
    ensures !(Render(CtorJson(name, body)) <= Replacement(name, literal) + x)
  {
    hide LitText, StringLit, Render, CtorJson;
    CtorNameLetter(name);
    ReplacementText(name, body);
    LongerString(literal, quote, body, "{\"" + CtorKey(name).value + "\": ", x);
  }

  lemma CutParts(quote: char, body: string, k: nat, tail: string)
    requires k < |body| && body[k] == ')'
    ensures "(" + ([quote] + body + [quote]) + ")" + tail
      == "(" + ([quote] + body[..k]) + ")" + (body[k + 1..] + [quote] + ")" + tail)
  {
    assert body == body[..k] + ")" + body[k + 1..];
  }

  lemma CtorNameLetter(name: string)
    requires CtorKey(name).Some?
    ensures name != "" && name[0] != '{' && IsCtorName(name) && name != "NumberInt"
  {
  }

  /** A quoted call of a constructor becomes the Extended JSON that it stands for exactly when no closing
      parenthesis stands between its quotes. */
  lemma CallBecomesIff(u: Unicode, prev: Option<char>, name: string, quote: char, body: string, tail: string)
    requires Coherent(u) && CtorKey(name).Some? && (quote == '"' || quote == '\'')
    ensures Becomes(u, prev, name + ("(" + ([quote] + body + [quote]) + ")"), Render(CtorJson(name, body)), tail)
      <==> ')' !in body
  {
    hide RelaxFrom, LastInk, Coherent, CtorKey, CtorJson;
    if ')' in body {
      CutCallDiffers(u, prev, name, quote, body, tail);
    } else {
      CtorNameLetter(name);
      var v := Ctor(name, "", "", QuotedArg(quote, body), "");
      CtorText(v);
      CtorBecomes(u, prev, v, tail);
    }
  }

  lemma CtorText(v: Json)
    requires v.Ctor? && v.gap == "" && v.before == "" && v.after == "" && v.arg.QuotedArg?
    ensures Render(v) == v.name + ("(" + ([v.arg.quote] + v.arg.body + [v.arg.quote]) + ")")
  {
    var text := ArgText(v.arg);
    assert "" + text + "" == text && "" + ("(" + (text + ")")) == "(" + text + ")";
  }
}
