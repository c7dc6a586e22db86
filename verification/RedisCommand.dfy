/** The Redis connector's command line: `SplitCommand` reads arguments the way `redis-cli` does,
    and `QuoteArg` writes one argument so that it reads back as itself. */
module RedisCommand {
  import opened Text

  datatype CommandError = UnterminatedQuote(quote: char) | TextAfterQuote

  // ----- the reading rules, as functions on the text still to read

  /** What the characters at the start of `s` add to a token quoted with `quote`, and how many
      of them that takes. `s` does not start with the closing quote. */
  function Unescape(quote: char, s: string): (r: (string, nat))
    requires s != []
    ensures 0 < r.1 <= |s|
  {
    if s[0] != '\\' || |s| == 1 then ([s[0]], 1)
    else if quote == '\'' then (if s[1] == '\'' then "'" else ['\\', s[1]], 2)
    else if s[1] == 'x' && |s| > 3 && IsHexDigit(s[2]) && IsHexDigit(s[3]) then
      ([(HexValue(s[2]) * 16 + HexValue(s[3])) as char], 4)
    else
      ([match s[1]
        case 'n' => '\n'
        case 'r' => '\r'
        case 't' => '\t'
        case 'b' => '\U{0008}'
        case 'a' => '\U{0007}'
        case other => other], 2)
  }

  /** The token up to the closing quote and the text after it; `None` when there is no closing quote. */
  function ReadQuoted(quote: char, s: string): Option<(string, string)> {
    if s == [] then None
    else if s[0] == quote then Some(("", s[1..]))
    else
      var (piece, n) := Unescape(quote, s);
      Extend(piece, ReadQuoted(quote, s[n..]))
  }

  function Extend(piece: string, r: Option<(string, string)>): Option<(string, string)> {
    if r.None? then None else Some((piece + r.value.0, r.value.1))
  }

  lemma ExtendTwice(a: string, b: string, r: Option<(string, string)>)
    ensures Extend("", r) == r
    ensures Extend(a, Extend(b, r)) == Extend(a + b, r)
  {
    if r.Some? {
      assert "" + r.value.0 == r.value.0;
      assert a + (b + r.value.0) == a + b + r.value.0;
    }
  }

  /** The characters before the first whitespace, and the text from there on. */
  function ReadBare(s: string): (r: (string, string))
    ensures |r.1| <= |s|
    ensures s != [] && !IsWhitespace(s[0]) ==> |r.1| < |s|
  {
    if s == [] || IsWhitespace(s[0]) then ("", s)
    else
      var (token, rest) := ReadBare(s[1..]);
      ([s[0]] + token, rest)
  }

  lemma {:induction false} QuotedShrinks(quote: char, s: string)
    ensures ReadQuoted(quote, s).Some? ==> |ReadQuoted(quote, s).value.1| < |s|
  {
    if s != [] && s[0] != quote {
      QuotedShrinks(quote, s[Unescape(quote, s).1..]);
    }
  }

  function Arguments(s: string): Result<seq<string>, CommandError>
    decreases |s|
  {
    if s == [] then Ok([])
    else if IsWhitespace(s[0]) then Arguments(s[1..])
    else if s[0] == '"' || s[0] == '\'' then
      QuotedShrinks(s[0], s[1..]);
      match ReadQuoted(s[0], s[1..])
      case None => Err(UnterminatedQuote(s[0]))
      case Some((token, rest)) =>
        if rest != [] && !IsWhitespace(rest[0]) then Err(TextAfterQuote)
        else Prepend([token], Arguments(rest))
    else
      var (token, rest) := ReadBare(s);
      Prepend([token], Arguments(rest))
  }

  function Prepend(tokens: seq<string>, r: Result<seq<string>, CommandError>): Result<seq<string>, CommandError> {
    match r
    case Ok(more) => Ok(tokens + more)
    case Err(_) => r
  }

  lemma PrependTwice(a: seq<string>, b: seq<string>, r: Result<seq<string>, CommandError>)
    ensures Prepend([], r) == r
    ensures Prepend(a, Prepend(b, r)) == Prepend(a + b, r)
  {
    if r.Ok? {
      assert [] + r.value == r.value;
      assert a + (b + r.value) == a + b + r.value;
    }
  }

  /** The inner loop over a quoted token, from just after the opening quote. */
  method ScanQuoted(text: string, quote: char, from: nat) returns (token: string, i: nat, closed: bool)
    requires from <= |text|
    ensures from <= i <= |text|
    ensures ReadQuoted(quote, text[from..]) == if closed then Some((token, text[i..])) else None
  {
    token, i, closed := "", from, false;
    ExtendTwice("", "", ReadQuoted(quote, text[i..]));
    while i < |text|
      invariant from <= i <= |text| && !closed
      invariant ReadQuoted(quote, text[from..]) == Extend(token, ReadQuoted(quote, text[i..]))
    {
      var c := text[i];
      if c == quote {
        Suffixes(text, i, 1);
        assert token + "" == token;
        closed := true;
        i := i + 1;
        break;
      }
      var (piece, n) := Unescape(quote, text[i..]);
      Suffixes(text, i, n);
      ExtendTwice(token, piece, ReadQuoted(quote, text[i + n..]));
      token := token + piece;
      i := i + n;
    }
  }

  /** The inner loop over a token without quotes. */
  method ScanBare(text: string, from: nat) returns (token: string, i: nat)
    requires from <= |text|
    ensures from <= i <= |text| && ReadBare(text[from..]) == (token, text[i..])
  {
    token, i := "", from;
    assert "" + ReadBare(text[i..]).0 == ReadBare(text[i..]).0;
    while i < |text| && !IsWhitespace(text[i])
      invariant from <= i <= |text|
      invariant ReadBare(text[from..]) == (token + ReadBare(text[i..]).0, ReadBare(text[i..]).1)
    {
      Suffixes(text, i, 1);
      assert token + ([text[i]] + ReadBare(text[i + 1..]).0) == token + [text[i]] + ReadBare(text[i + 1..]).0;
      token := token + [text[i]];
      i := i + 1;
    }
    assert token + "" == token;
  }

  /** The scanner: one index over the characters, one inner loop per kind of token. */
  method SplitCommand(text: string) returns (r: Result<seq<string>, CommandError>)
    ensures r == Arguments(text)
  {
    var out := [];
    var i := 0;
    assert text[0..] == text;
    PrependTwice([], [], Arguments(text));
    while i < |text|
      invariant 0 <= i <= |text|
      invariant Arguments(text) == Prepend(out, Arguments(text[i..]))
    {
      Suffixes(text, i, 1);
      if IsWhitespace(text[i]) {
        i := i + 1;
        continue;
      }
      var token;
      if text[i] == '"' || text[i] == '\'' {
        var quote := text[i];
        var closed;
        token, i, closed := ScanQuoted(text, quote, i + 1);
        if !closed {
          return Err(UnterminatedQuote(quote));
        }
        if i < |text| && !IsWhitespace(text[i]) {
          return Err(TextAfterQuote);
        }
      } else {
        token, i := ScanBare(text, i);
      }
      PrependTwice(out, [token], Arguments(text[i..]));
      out := out + [token];
    }
    assert out + [] == out;
    r := Ok(out);
  }

  // ----- writing

  predicate IsPlain(arg: string) {
    arg != [] && forall i | 0 <= i < |arg| ::
      !IsWhitespace(arg[i]) && arg[i] != '"' && arg[i] != '\'' && arg[i] != '\\'
  }

  function EscapeChar(c: char): string {
    match c
    case '"' => "\\\""
    case '\\' => "\\\\"
    case '\n' => "\\n"
    case '\r' => "\\r"
    case '\t' => "\\t"
    case other => [other]
  }

  function EscapeAll(arg: string): string {
    if arg == [] then "" else EscapeChar(arg[0]) + EscapeAll(arg[1..])
  }

  function Quoted(arg: string): string {
    if IsPlain(arg) then arg else "\"" + EscapeAll(arg) + "\""
  }

  method QuoteArg(arg: string) returns (out: string)
    ensures out == Quoted(arg)
  {
    if IsPlain(arg) {
      return arg;
    }
    out := "\"";
    for i := 0 to |arg|
      invariant "\"" + EscapeAll(arg) == out + EscapeAll(arg[i..])
    {
      out := out + EscapeChar(arg[i]);
    }
    assert arg[|arg|..] == [];
    out := out + "\"";
  }

  // ----- reading undoes writing

  lemma UnescapeEscaped(c: char, more: string)
    ensures EscapeChar(c)[0] != '"' && Unescape('"', EscapeChar(c) + more) == ([c], |EscapeChar(c)|)
    ensures (EscapeChar(c) + more)[|EscapeChar(c)|..] == more
  {
  }

  lemma {:induction false} ReadEscaped(arg: string, rest: string)
    ensures ReadQuoted('"', EscapeAll(arg) + "\"" + rest) == Some((arg, rest))
  {
    if arg == [] {
      assert EscapeAll(arg) + "\"" + rest == "\"" + rest;
    } else {
      var more := EscapeAll(arg[1..]) + "\"" + rest;
      ReadEscaped(arg[1..], rest);
      UnescapeEscaped(arg[0], more);
      assert EscapeAll(arg) + "\"" + rest == EscapeChar(arg[0]) + more;
      assert [arg[0]] + arg[1..] == arg;
    }
  }

  lemma {:induction false} ReadPlain(arg: string, rest: string)
    requires forall i | 0 <= i < |arg| :: !IsWhitespace(arg[i])
    requires rest != [] ==> IsWhitespace(rest[0])
    ensures ReadBare(arg + rest) == (arg, rest)
  {
    if arg == [] {
      assert arg + rest == rest;
    } else {
      ReadPlain(arg[1..], rest);
      assert (arg + rest)[1..] == arg[1..] + rest;
      assert [arg[0]] + arg[1..] == arg;
    }
  }

  /** A written argument, followed by the end or by whitespace, is read as exactly that argument. */
  lemma ReadArgument(arg: string, rest: string)
    requires rest != [] ==> IsWhitespace(rest[0])
    ensures Arguments(Quoted(arg) + rest) == Prepend([arg], Arguments(rest))
  {
    if IsPlain(arg) {
      ReadPlain(arg, rest);
      assert (arg + rest)[0] == arg[0];
    } else {
      ReadEscapedArgument(arg, rest);
    }
  }

  lemma ReadEscapedArgument(arg: string, rest: string)
    requires rest != [] ==> IsWhitespace(rest[0])
    ensures Arguments("\"" + EscapeAll(arg) + "\"" + rest) == Prepend([arg], Arguments(rest))
  {
    hide EscapeAll, Arguments, ReadQuoted, Prepend;
    var body := EscapeAll(arg) + "\"" + rest;
    ReadEscaped(arg, rest);
    OpenQuote(body, arg, rest);
    assert "\"" + EscapeAll(arg) + "\"" + rest == "\"" + body;
  }

  lemma OpenQuote(body: string, token: string, rest: string)
    requires ReadQuoted('"', body) == Some((token, rest))
    requires rest != [] ==> IsWhitespace(rest[0])
    ensures Arguments("\"" + body) == Prepend([token], Arguments(rest))
  {
    assert ("\"" + body)[1..] == body;
  }

  function QuotedAll(args: seq<string>): seq<string> {
    if args == [] then [] else [Quoted(args[0])] + QuotedAll(args[1..])
  }

  /** Every argument list survives being written on one line and split again, whatever
      characters its arguments hold. */
  lemma {:induction false} SplitUndoesQuoting(args: seq<string>)
    ensures Arguments(Join(QuotedAll(args), " ")) == Ok(args)
  {
    if args == [] {
    } else if |args| == 1 {
      ReadArgument(args[0], "");
      assert Quoted(args[0]) + "" == Quoted(args[0]);
      assert [args[0]] + [] == args;
    } else {
      SplitUndoesQuoting(args[1..]);
      ReadFirst(args[0], Join(QuotedAll(args[1..]), " "));
      assert QuotedAll(args)[1..] == QuotedAll(args[1..]);
      assert [args[0]] + args[1..] == args;
    }
  }

  lemma ReadFirst(arg: string, line: string)
    ensures Arguments(Quoted(arg) + " " + line) == Prepend([arg], Arguments(line))
  {
    ReadArgument(arg, " " + line);
    assert (" " + line)[1..] == line;
    assert Quoted(arg) + " " + line == Quoted(arg) + (" " + line);
  }

  /** An argument is written without quotes exactly when it is not empty and has no whitespace, quote or
      backslash in it. */
  lemma WrittenBareIff(arg: string)
    ensures Quoted(arg) == arg <==>
      arg != "" && forall i | 0 <= i < |arg| ::
        !IsWhitespace(arg[i]) && arg[i] != '"' && arg[i] != '\'' && arg[i] != '\\'
  {
    if !IsPlain(arg) {
      EscapesGrow(arg);
    }
  }

  lemma {:induction false} EscapesGrow(arg: string)
    ensures |EscapeAll(arg)| >= |arg|
  {
    if arg != "" {
      EscapesGrow(arg[1..]);
    }
  }

  /** Whatever the argument, what is written stays on one line. */
  lemma {:induction false} WrittenOnOneLine(arg: string)
    ensures '\n' !in EscapeAll(arg) && '\r' !in EscapeAll(arg) && '\t' !in EscapeAll(arg)
    ensures '\n' !in Quoted(arg) && '\r' !in Quoted(arg) && '\t' !in Quoted(arg)
  {
    if arg != "" {
      WrittenOnOneLine(arg[1..]);
    }
  }

  // ----- reading, spelled out

  lemma BlankIsSkipped(c: char, s: string)
    requires IsWhitespace(c)
    ensures Arguments([c] + s) == Arguments(s) && Arguments("") == Ok([])
  {
    assert ([c] + s)[1..] == s;
  }

  /** A token that does not start with a quote stands for itself, quotes inside it included. */
  lemma BareIsItself(s: string, rest: string)
    requires s != "" && s[0] != '"' && s[0] != '\'' && forall i | 0 <= i < |s| :: !IsWhitespace(s[i])
    requires rest != "" ==> IsWhitespace(rest[0])
    ensures Arguments(s + rest) == Prepend([s], Arguments(rest))
  {
    ReadPlain(s, rest);
    assert (s + rest)[0] == s[0];
  }

  /** In either quotes, a character that is neither that quote nor a backslash stands for itself. */
  lemma OrdinaryIsItself(quote: char, c: char, more: string)
    requires c != quote && c != '\\'
    ensures ReadQuoted(quote, [c] + more) == Extend([c], ReadQuoted(quote, more))
  {
    assert ([c] + more)[1..] == more;
  }

  /** The escapes in double quotes: five letters stand for control characters, and anything but them and
      `x` for itself. */
  lemma DoubleEscape(e: char, c: char, more: string)
    requires (e == 'n' && c == '\n') || (e == 'r' && c == '\r') || (e == 't' && c == '\t')
          || (e == 'b' && c == '\U{0008}') || (e == 'a' && c == '\U{0007}') || (e !in "nrtbax" && c == e)
    ensures ReadQuoted('"', ['\\', e] + more) == Extend([c], ReadQuoted('"', more))
  {
    assert (['\\', e] + more)[2..] == more;
  }

  /** `\x` and two hexadecimal digits stand for that character. */
  lemma HexEscape(h: nat, l: nat, upper: bool, more: string)
    requires h < 16 && l < 16
    ensures var digits := if upper then "0123456789ABCDEF" else "0123456789abcdef";
      ReadQuoted('"', ['\\', 'x', digits[h], digits[l]] + more)
      == Extend([(16 * h + l) as char], ReadQuoted('"', more))
  {
    hide IsHexDigit, HexValue;
    HexDigitIs(h, upper);
    HexDigitIs(l, upper);
    var digits := if upper then "0123456789ABCDEF" else "0123456789abcdef";
    HexPiece(digits[h], digits[l], more);
  }

  lemma HexPiece(h: char, l: char, more: string)
    requires IsHexDigit(h) && IsHexDigit(l)
    ensures ReadQuoted('"', ['\\', 'x', h, l] + more)
         == Extend([(HexValue(h) * 16 + HexValue(l)) as char], ReadQuoted('"', more))
  {
    hide IsHexDigit, HexValue;
    assert (['\\', 'x', h, l] + more)[4..] == more;
  }

  lemma HexDigitIs(n: nat, upper: bool)
    requires n < 16
    ensures var digits := if upper then "0123456789ABCDEF" else "0123456789abcdef";
      IsHexDigit(digits[n]) && HexValue(digits[n]) == n
  {
  }

  /** `\x` in front of anything else stands for an `x`. */
  lemma LoneX(more: string)
    requires |more| < 2 || !(IsHexDigit(more[0]) && IsHexDigit(more[1]))
    ensures ReadQuoted('"', ['\\', 'x'] + more) == Extend("x", ReadQuoted('"', more))
  {
    hide IsHexDigit, ReadQuoted;
    var s := ['\\', 'x'] + more;
    assert s[2..] == more;
    assert |s| > 3 ==> s[2] == more[0] && s[3] == more[1];
    assert Unescape('"', s) == ("x", 2);
    ReadTurn(s);
  }

  lemma ReadTurn(s: string)
    requires s != "" && s[0] == '\\'
    ensures ReadQuoted('"', s) == Extend(Unescape('"', s).0, ReadQuoted('"', s[Unescape('"', s).1..]))
  {
    hide Unescape;
  }

  /** In single quotes only the single quote can be escaped; a backslash keeps the character behind it. */
  lemma SingleEscape(e: char, more: string)
    ensures ReadQuoted('\'', ['\\', e] + more)
         == Extend(if e == '\'' then "'" else ['\\', e], ReadQuoted('\'', more))
  {
    assert (['\\', e] + more)[2..] == more;
  }

  // ----- a text in single quotes

  /** The text with every single quote escaped. */
  function InSingle(s: string): string {
    if s == "" then "" else (if s[0] == '\'' then "\\'" else [s[0]]) + InSingle(s[1..])
  }

  /** Paired off from the left, no backslash stands in front of a single quote or at the end. */
  predicate SingleSafe(s: string) {
    s == "" ||
    (if s[0] == '\\' then |s| > 1 && s[1] != '\'' && SingleSafe(s[2..]) else SingleSafe(s[1..]))
  }

  lemma InSingleFirst(s: string, rest: string)
    requires s != ""
    ensures InSingle(s) + ("'" + rest) == (if s[0] == '\'' then "\\'" else [s[0]]) + (InSingle(s[1..]) + ("'" + rest))
  {
  }

  lemma InSinglePair(s: string, rest: string)
    requires |s| > 1 && s[0] == '\\' && s[1] != '\''
    ensures InSingle(s) + ("'" + rest) == ['\\', s[1]] + (InSingle(s[2..]) + ("'" + rest))
  {
    hide InSingle;
    InSingleFirst(s, rest);
    InSingleFirst(s[1..], rest);
    assert s[1..][1..] == s[2..] && s[1..][0] == s[1];
    TwoThen(s[0], s[1], InSingle(s[2..]) + ("'" + rest));
  }

  lemma TwoThen(a: char, b: char, more: string)
    ensures [a] + ([b] + more) == [a, b] + more
  {
  }

  lemma ExtendSame(piece: string, r: Option<(string, string)>, s: string, rest: string)
    ensures Extend(piece, r) == Some((piece + s, rest)) <==> r == Some((s, rest))
  {
    if r.Some? {
      assert (piece + r.value.0)[|piece|..] == r.value.0 && (piece + s)[|piece|..] == s;
    }
  }

  lemma ExtendOther(piece: string, r: Option<(string, string)>, s: string, rest: string)
    requires piece != "" && |piece| <= |s| && s[..|piece|] != piece
    ensures Extend(piece, r) != Some((s, rest))
  {
    if r.Some? {
      assert (piece + r.value.0)[..|piece|] == piece;
    }
  }

  /** A text in single quotes, its own ones escaped, is read as itself exactly when its backslashes are
      safe. */
  lemma {:induction false} ReadSingleIff(s: string, rest: string)
    ensures ReadQuoted('\'', InSingle(s) + ("'" + rest)) == Some((s, rest)) <==> SingleSafe(s)
    decreases |s|
  {
    hide ReadQuoted, InSingle;
    if s == "" {
      SingleEnd(rest);
    } else if s[0] == '\\' && |s| > 1 && s[1] != '\'' {
      InSinglePair(s, rest);
      SingleEscape(s[1], InSingle(s[2..]) + ("'" + rest));
      ReadSingleIff(s[2..], rest);
      ExtendSame(['\\', s[1]], ReadQuoted('\'', InSingle(s[2..]) + ("'" + rest)), s[2..], rest);
      assert s == ['\\', s[1]] + s[2..];
    } else if s[0] == '\\' {
      UnsafeBackslash(s, rest);
    } else {
      var more := InSingle(s[1..]) + ("'" + rest);
      InSingleFirst(s, rest);
      if s[0] == '\'' {
        SingleEscape('\'', more);
      } else {
        OrdinaryIsItself('\'', s[0], more);
      }
      ReadSingleIff(s[1..], rest);
      ExtendSame([s[0]], ReadQuoted('\'', more), s[1..], rest);
      assert s == [s[0]] + s[1..];
    }
  }

  lemma SingleEnd(rest: string)
    ensures ReadQuoted('\'', InSingle("") + ("'" + rest)) == Some(("", rest))
  {
    assert InSingle("") + ("'" + rest) == "'" + rest;
  }

  lemma UnsafeBackslash(s: string, rest: string)
    requires s != "" && s[0] == '\\' && (|s| == 1 || s[1] == '\'')
    ensures ReadQuoted('\'', InSingle(s) + ("'" + rest)) != Some((s, rest))
  {
    hide ReadQuoted, InSingle;
    InSingleFirst(s, rest);
    if |s| == 1 {
      InSingleNothing();
      SingleEscape('\'', rest);
      TwoThen('\\', '\'', rest);
      assert s[1..] == "" && "" + ("'" + rest) == ['\''] + rest;
      ExtendOther("'", ReadQuoted('\'', rest), s, rest);
    } else {
      InSingleFirst(s[1..], rest);
      var more := InSingle(s[1..][1..]) + ("'" + rest);
      assert ['\\'] + ("\\'" + more) == ['\\', '\\'] + ("'" + more);
      SingleEscape('\\', "'" + more);
      ExtendOther(['\\', '\\'], ReadQuoted('\'', "'" + more), s, rest);
    }
  }

  lemma InSingleNothing()
    ensures InSingle("") == ""
  {
  }

  /** So such a text in front of a space or the end is one argument, itself. */
  lemma SingleQuotedIsItself(s: string, rest: string)
    requires SingleSafe(s) && (rest != "" ==> IsWhitespace(rest[0]))
    ensures Arguments("'" + (InSingle(s) + ("'" + rest))) == Prepend([s], Arguments(rest))
  {
    hide ReadQuoted, InSingle, SingleSafe;
    var body := InSingle(s) + ("'" + rest);
    ReadSingleIff(s, rest);
    assert ("'" + body)[1..] == body;
  }

  /** In particular, in either quotes, a text without quotes and backslashes. */
  lemma PlainQuotedIsItself(quote: char, s: string, rest: string)
    requires quote == '"' || quote == '\''
    requires forall i | 0 <= i < |s| :: s[i] != '"' && s[i] != '\'' && s[i] != '\\'
    requires rest != "" ==> IsWhitespace(rest[0])
    ensures Arguments([quote] + (s + ([quote] + rest))) == Prepend([s], Arguments(rest))
  {
    hide ReadQuoted;
    var body := s + ([quote] + rest);
    PlainInside(quote, s, rest);
    assert ([quote] + body)[1..] == body;
  }

  lemma {:induction false} PlainInside(quote: char, s: string, rest: string)
    requires forall i | 0 <= i < |s| :: s[i] != quote && s[i] != '\\'
    ensures ReadQuoted(quote, s + ([quote] + rest)) == Some((s, rest))
  {
    if s == "" {
      assert s + ([quote] + rest) == [quote] + rest;
    } else {
      PlainInside(quote, s[1..], rest);
      OrdinaryIsItself(quote, s[0], s[1..] + ([quote] + rest));
      assert s + ([quote] + rest) == [s[0]] + (s[1..] + ([quote] + rest));
      assert [s[0]] + s[1..] == s;
    }
  }

  // ----- the errors

  /** A text in which every such quote stands behind a backslash of its own, and no backslash is left over
      at the end. */
  predicate StaysOpen(quote: char, s: string) {
    s == "" ||
    (if s[0] == '\\' then |s| > 1 && StaysOpen(quote, s[2..]) else s[0] != quote && StaysOpen(quote, s[1..]))
  }

  lemma StaysOpenFurther(quote: char, s: string, k: nat)
    requires s != "" && k <= |s| && 0 < k
    ensures s[0] != '\\' ==> (StaysOpen(quote, s[..k]) <==> s[0] != quote && StaysOpen(quote, s[1..][..k - 1]))
    ensures s[0] == '\\' ==> (StaysOpen(quote, s[..k]) <==> k > 1 && StaysOpen(quote, s[2..][..k - 2]))
  {
    assert s[..k][1..] == s[1..][..k - 1];
    if k > 1 {
      assert s[..k][2..] == s[2..][..k - 2];
    }
  }

  /** The quote that closes a token: the first one that the text in front of it leaves open for. */
  predicate ClosesAt(quote: char, s: string, k: nat) {
    k < |s| && s[k] == quote && StaysOpen(quote, s[..k])
  }

  lemma PlainFirst(quote: char, s: string, k: nat)
    requires s != "" && s[0] != '\\' && s[0] != quote && 0 < k
    ensures ClosesAt(quote, s, k) <==> ClosesAt(quote, s[1..], k - 1)
  {
    hide StaysOpen;
    if k <= |s| {
      StaysOpenFurther(quote, s, k);
    }
  }

  lemma EscapeFirst(quote: char, s: string, k: nat)
    requires |s| > 1 && s[0] == '\\' && 1 < k
    ensures ClosesAt(quote, s, k) <==> ClosesAt(quote, s[2..], k - 2)
  {
    hide StaysOpen;
    if k <= |s| {
      StaysOpenFurther(quote, s, k);
    }
  }

  lemma NotYet(quote: char, s: string, k: nat)
    requires (quote == '"' || quote == '\'') && ClosesAt(quote, s, k)
    ensures s[0] == quote ==> k == 0
    ensures s[0] != quote ==> k > 0 && (s[0] == '\\' ==> k > 1)
  {
    if k > 0 {
      assert s[..k][0] == s[0];
    }
  }

  /** What one turn of the reader takes off the text is an escape, one of two hexadecimal digits, or one
      character. */
  lemma TurnLength(quote: char, s: string)
    requires s != "" && s[0] != quote && (quote == '"' || quote == '\'')
    ensures var n := Unescape(quote, s).1;
      && (n == 1 || n == 2 || n == 4)
      && (n == 1 <==> s[0] != '\\' || |s| == 1)
      && (n == 4 ==> |s| > 3 && s[2] != quote && s[3] != quote && s[2] != '\\' && s[3] != '\\')
      && ReadQuoted(quote, s) == Extend(Unescape(quote, s).0, ReadQuoted(quote, s[n..]))
  {
  }

  lemma TurnCloses(quote: char, s: string, k: nat)
    requires s != "" && s[0] != quote && (quote == '"' || quote == '\'') && k >= Unescape(quote, s).1
    ensures ClosesAt(quote, s, k) <==>
      ClosesAt(quote, s[Unescape(quote, s).1..], k - Unescape(quote, s).1) && !(s[0] == '\\' && |s| == 1)
  {
    hide Unescape, ReadQuoted, ClosesAt;
    TurnLength(quote, s);
    var n := Unescape(quote, s).1;
    if n == 1 && |s| == 1 && s[0] == '\\' {
      NoRoom(quote, s, k);
    } else if n == 1 {
      PlainFirst(quote, s, k);
    } else {
      EscapeFirst(quote, s, k);
      if n == 4 {
        PlainFirst(quote, s[2..], k - 2);
        PlainFirst(quote, s[2..][1..], k - 3);
        assert s[2..][1..][1..] == s[4..];
      }
    }
  }

  lemma NoRoom(quote: char, s: string, k: nat)
    requires |s| <= k
    ensures !ClosesAt(quote, s, k)
  {
  }

  /** That quote closes the token, and what follows it is left to read. */
  lemma {:induction false} ClosedThere(quote: char, s: string, k: nat)
    requires (quote == '"' || quote == '\'') && ClosesAt(quote, s, k)
    ensures ReadQuoted(quote, s).Some? && ReadQuoted(quote, s).value.1 == s[k + 1..]
    decreases |s|
  {
    NotYet(quote, s, k);
    hide StaysOpen, Unescape, ReadQuoted, ClosesAt;
    if s[0] == quote {
      ClosedNow(quote, s);
    } else {
      var n := Unescape(quote, s).1;
      TurnLength(quote, s);
      if k < n {
        InsideTurn(quote, s, k);
      } else {
        TurnCloses(quote, s, k);
        ClosedThere(quote, s[n..], k - n);
        assert s[n..][k - n + 1..] == s[k + 1..];
      }
    }
  }

  lemma ClosedNow(quote: char, s: string)
    requires s != "" && s[0] == quote
    ensures ReadQuoted(quote, s) == Some(("", s[1..])) && ClosesAt(quote, s, 0)
  {
    assert s[..0] == "";
  }

  lemma InsideTurn(quote: char, s: string, k: nat)
    requires s != "" && s[0] != quote && (quote == '"' || quote == '\'') && k < Unescape(quote, s).1
    ensures !ClosesAt(quote, s, k)
  {
    hide Unescape, ReadQuoted;
    TurnLength(quote, s);
    if k == 1 {
      assert s[..1][0] == s[0];
    }
  }

  lemma {:induction false} ClosedSomewhere(quote: char, s: string) returns (k: nat)
    requires (quote == '"' || quote == '\'') && ReadQuoted(quote, s).Some?
    ensures ClosesAt(quote, s, k)
    decreases |s|
  {
    hide StaysOpen, Unescape, ClosesAt;
    if s[0] == quote {
      ClosedNow(quote, s);
      k := 0;
    } else {
      var n := Unescape(quote, s).1;
      TurnLength(quote, s);
      var rest := ClosedSomewhere(quote, s[n..]);
      k := rest + n;
      if n == 1 && |s| == 1 {
        NoRoom(quote, s[1..], rest);
      }
      TurnCloses(quote, s, k);
    }
  }

  lemma OpenToken(quote: char, s: string)
    requires (quote == '"' || quote == '\'') && ReadQuoted(quote, s).None?
    ensures Arguments([quote] + s) == Err(UnterminatedQuote(quote))
  {
    hide ReadQuoted;
    assert ([quote] + s)[1..] == s;
  }

  /** A line is refused for a quoted token without end exactly when no quote closes the token. */
  lemma UnterminatedIff(quote: char, s: string)
    requires quote == '"' || quote == '\''
    ensures ReadQuoted(quote, s).None? <==> forall k :: !ClosesAt(quote, s, k)
    ensures (forall k :: !ClosesAt(quote, s, k)) ==> Arguments([quote] + s) == Err(UnterminatedQuote(quote))
  {
    hide ReadQuoted, ClosesAt, Arguments;
    if ReadQuoted(quote, s).Some? {
      var k := ClosedSomewhere(quote, s);
    } else {
      OpenToken(quote, s);
      forall k: nat ensures !ClosesAt(quote, s, k) {
        if ClosesAt(quote, s, k) {
          ClosedThere(quote, s, k);
        }
      }
    }
  }

  /** A closed token is refused exactly when text follows it at once; otherwise it is one argument in front
      of what follows. */
  lemma ClosedToken(quote: char, s: string, k: nat)
    requires (quote == '"' || quote == '\'') && ClosesAt(quote, s, k)
    ensures var rest := s[k + 1..];
      if rest != "" && !IsWhitespace(rest[0]) then Arguments([quote] + s) == Err(TextAfterQuote)
      else exists token :: Arguments([quote] + s) == Prepend([token], Arguments(rest))
  {
    hide ReadQuoted, ClosesAt, Arguments;
    ClosedThere(quote, s, k);
    var (token, rest) := ReadQuoted(quote, s).value;
    ReadToken(quote, s, token, rest);
  }

  lemma ReadToken(quote: char, s: string, token: string, rest: string)
    requires (quote == '"' || quote == '\'') && ReadQuoted(quote, s) == Some((token, rest))
    ensures Arguments([quote] + s) ==
      if rest != "" && !IsWhitespace(rest[0]) then Err(TextAfterQuote) else Prepend([token], Arguments(rest))
  {
    hide ReadQuoted;
    assert ([quote] + s)[1..] == s;
  }
}
