/** Relaxed JSON rewritten as strict JSON: keys quoted, single-quoted strings requoted, trailing
    commas dropped, shell constructors spelled out as Extended JSON. */
module RelaxJson {
  import opened Text
  import opened JsonSyntax
  import JsComments

  function NextInk(s: string): Option<char> {
    if s == "" then None else if IsWhitespace(s[0]) then NextInk(s[1..]) else Some(s[0])
  }

  /** The last character of `s` that is not whitespace, or `prev` when there is none. */
  function LastInk(prev: Option<char>, s: string): Option<char> {
    if s == "" then prev
    else if IsWhitespace(s[|s| - 1]) then LastInk(prev, s[..|s| - 1])
    else Some(s[|s| - 1])
  }

  function WordLength(u: Unicode, s: string): (n: nat)
    ensures n <= |s| && (n < |s| ==> !InWord(u, s[n]))
    ensures forall i | 0 <= i < n :: InWord(u, s[i])
  {
    if s == "" || !InWord(u, s[0]) then 0 else 1 + WordLength(u, s[1..])
  }

  function SpaceLength(s: string): (n: nat)
    ensures n <= |s| && (n < |s| ==> !IsWhitespace(s[n]))
  {
    if s == "" || !IsWhitespace(s[0]) then 0 else 1 + SpaceLength(s[1..])
  }

  /** What a stretch of the input becomes, and how long that stretch is. */
  datatype Piece = Piece(text: string, used: nat)

  // ----- the pieces

  /** A single plain literal: a quoted text, or digits, minus signs and points. */
  function PlainLiteral(inner: string): Option<string> {
    var n := |inner|;
    if n >= 2 && JsComments.IsQuote(inner[0]) && inner[n - 1] == inner[0] then Some(inner[1..n - 1])
    else if IsPlainNumber(inner) then Some(inner)
    else None
  }

  /** The content of the literal that `s` holds up to its first closing parenthesis. */
  function UpToParen(s: string): (r: Option<Piece>)
    ensures r.Some? ==> r.value.used <= |s|
  {
    var close := Find(s, ')');
    if close.None? then None
    else
      var literal := PlainLiteral(Trim(s[..close.value]));
      if literal.None? then None else Some(Piece(literal.value, close.value + 1))
  }

  function CallArgument(s: string): (r: Option<Piece>)
    ensures r.Some? ==> r.value.used <= |s|
  {
    var i := SpaceLength(s);
    if i == |s| || s[i] != '(' then None
    else
      var r := UpToParen(s[i + 1..]);
      if r.None? then None else Some(Piece(r.value.text, i + 1 + r.value.used))
  }

  function Replacement(word: string, literal: string): string {
    match CtorKey(word)
    case Some(key) => "{\"" + key + "\": " + LitText(StringLit(literal)) + "}"
    case None => literal
  }

  /** The replacement for a constructor named `word` when `s` follows the name. */
  function ConstructorCall(word: string, s: string): (r: Option<Piece>)
    ensures r.Some? ==> r.value.used <= |s|
  {
    var argument := CallArgument(s);
    if !IsCtorName(word) || argument.None? then None
    else Some(Piece(Replacement(word, argument.value.text), argument.value.used))
  }

  /** One element inside single quotes, as it stands inside double quotes. */
  function Requoted(s: string): (p: Piece)
    requires s != ""
    ensures 0 < p.used <= |s|
  {
    if s[0] == '\\' && |s| > 1 then Piece(if s[1] == '\'' then "'" else ['\\', s[1]], 2)
    else if s[0] == '"' then Piece("\\\"", 1)
    else Piece([s[0]], 1)
  }

  /** The rest of a single-quoted string, as the inside of a double-quoted one. */
  function SingleQuoted(s: string): (p: Piece)
    ensures p.used <= |s|
  {
    if s == "" then Piece("", 0)
    else if s[0] == '\'' then Piece("", 1)
    else
      var head := Requoted(s);
      var rest := SingleQuoted(s[head.used..]);
      Piece(head.text + rest.text, head.used + rest.used)
  }

  predicate IsKeyPlace(prev: Option<char>, next: Option<char>) {
    (prev == Some('{') || prev == Some(',')) && next == Some(':')
  }

  function WordPiece(u: Unicode, s: string, prev: Option<char>): (p: Piece)
    requires s != "" && InWord(u, s[0])
    ensures 0 < p.used <= |s|
  {
    var n := WordLength(u, s);
    var call := ConstructorCall(s[..n], s[n..]);
    if call.Some? then Piece(call.value.text, n + call.value.used)
    else if IsKeyPlace(prev, NextInk(s[n..])) then Piece("\"" + s[..n] + "\"", n)
    else Piece(s[..n], n)
  }

  /** A double-quoted string is copied. */
  function DoublePiece(s: string): (p: Piece)
    requires s != ""
    ensures 0 < p.used <= |s|
  {
    var n := 1 + JsComments.LiteralLength('"', s[1..]);
    Piece(s[..n], n)
  }

  function SinglePiece(s: string): (p: Piece)
    requires s != ""
    ensures 0 < p.used <= |s|
  {
    var inside := SingleQuoted(s[1..]);
    Piece("\"" + inside.text + "\"", 1 + inside.used)
  }

  /** A comma in front of a closing bracket is dropped. */
  function CommaPiece(next: Option<char>): Piece {
    Piece(if next == Some('}') || next == Some(']') then "" else ",", 1)
  }

  /** One turn of the scan; `prev` is the last character written that is not whitespace. */
  function NextPiece(u: Unicode, s: string, prev: Option<char>): (p: Piece)
    requires s != ""
    ensures 0 < p.used <= |s|
  {
    if s[0] == '"' then DoublePiece(s)
    else if s[0] == '\'' then SinglePiece(s)
    else if StartsWord(u, s[0]) then WordPiece(u, s, prev)
    else if s[0] == ',' then CommaPiece(NextInk(s[1..]))
    else Piece([s[0]], 1)
  }

  function RelaxFrom(u: Unicode, s: string, prev: Option<char>): string
    decreases |s|
  {
    if s == "" then ""
    else
      var p := NextPiece(u, s, prev);
      p.text + RelaxFrom(u, s[p.used..], LastInk(prev, p.text))
  }

  function Relax(u: Unicode, s: string): string {
    RelaxFrom(u, s, None)
  }

  // ----- the scanner

  lemma {:induction false} LastInkConcat(prev: Option<char>, a: string, b: string)
    ensures LastInk(prev, a + b) == LastInk(LastInk(prev, a), b)
  {
    if b == "" {
      assert a + b == a;
    } else {
      assert (a + b)[..|a + b| - 1] == a + b[..|b| - 1];
      if IsWhitespace(b[|b| - 1]) {
        LastInkConcat(prev, a, b[..|b| - 1]);
      }
    }
  }

  lemma {:induction false} LastInkOfBlank(prev: Option<char>, s: string)
    requires IsBlank(s)
    ensures LastInk(prev, s) == prev
  {
    if s != "" {
      assert s[|s| - 1] in s;
      LastInkOfBlank(prev, s[..|s| - 1]);
    }
  }

  method SkipSpace(input: string, at: nat) returns (i: nat)
    requires at <= |input|
    ensures i == at + SpaceLength(input[at..]) <= |input|
  {
    i := at;
    while i < |input| && IsWhitespace(input[i])
      invariant at <= i <= |input| && SpaceLength(input[at..]) == i - at + SpaceLength(input[i..])
    {
      assert input[i..][1..] == input[i + 1..];
      i := i + 1;
    }
  }

  method UpToParenAt(input: string, at: nat) returns (r: Option<Piece>)
    requires at <= |input|
    ensures r == UpToParen(input[at..])
  {
    var found := Find(input[at..], ')');
    if found.None? {
      return None;
    }
    Slices(input, at, found.value);
    var literal := PlainLiteral(Trim(input[at..at + found.value]));
    if literal.None? {
      return None;
    }
    return Some(Piece(literal.value, found.value + 1));
  }

  method CallArgumentAt(input: string, at: nat) returns (r: Option<Piece>)
    requires at <= |input|
    ensures r == CallArgument(input[at..])
  {
    hide UpToParen;
    var i := SkipSpace(input, at);
    if i == |input| || input[i] != '(' {
      return None;
    }
    Suffixes(input, at, i + 1 - at);
    r := UpToParenAt(input, i + 1);
    if r.Some? {
      r := Some(Piece(r.value.text, i + 1 - at + r.value.used));
    }
  }

  method ConstructorCallAt(word: string, input: string, at: nat) returns (r: Option<Piece>)
    requires at <= |input|
    ensures r == ConstructorCall(word, input[at..])
  {
    if !IsCtorName(word) {
      return None;
    }
    var argument := CallArgumentAt(input, at);
    if argument.None? {
      return None;
    }
    return Some(Piece(Replacement(word, argument.value.text), argument.value.used));
  }

  lemma RequoteStep(s: string, more: string)
    requires s != "" && s[0] != '\''
    ensures var head := Requoted(s);
      more + SingleQuoted(s).text == more + head.text + SingleQuoted(s[head.used..]).text
  {
    Assoc(more, Requoted(s).text, SingleQuoted(s[Requoted(s).used..]).text);
  }

  predicate RequotedSoFar(input: string, start: nat, i: nat, out: string, more: string) {
    && start <= i <= |input|
    && start + SingleQuoted(input[start..]).used == i + SingleQuoted(input[i..]).used
    && more + SingleQuoted(input[i..]).text == out + SingleQuoted(input[start..]).text
  }

  lemma RequotedFurther(input: string, start: nat, i: nat, out: string, more: string)
    requires i < |input| && input[i] != '\'' && RequotedSoFar(input, start, i, out, more)
    ensures var head := Requoted(input[i..]);
      RequotedSoFar(input, start, i + head.used, out, more + head.text)
  {
    RequoteStep(input[i..], more);
    Suffixes(input, i, Requoted(input[i..]).used);
  }

  lemma RequotedHead(input: string, i: nat)
    requires i < |input|
    ensures Requoted(input[i..]) ==
      if input[i] == '\\' && i + 1 < |input| then Piece(if input[i + 1] == '\'' then "'" else ['\\', input[i + 1]], 2)
      else Piece(if input[i] == '"' then "\\\"" else [input[i]], 1)
  {
  }

  lemma RequotedEnd(input: string, start: nat, i: nat, out: string, more: string)
    requires RequotedSoFar(input, start, i, out, more) && (i < |input| ==> input[i] == '\'')
    ensures start + SingleQuoted(input[start..]).used == if i < |input| then i + 1 else i
    ensures more == out + SingleQuoted(input[start..]).text
  {
  }

  method RequoteSingle(input: string, start: nat, out: string) returns (more: string, i: nat)
    requires start <= |input|
    ensures i == start + SingleQuoted(input[start..]).used <= |input|
    ensures more == out + SingleQuoted(input[start..]).text
  {
    more := out;
    i := start;
    assert RequotedSoFar(input, start, start, out, out);
    hide SingleQuoted, RequotedSoFar, Requoted;
    while i < |input| && input[i] != '\''
      invariant start <= i <= |input| && RequotedSoFar(input, start, i, out, more)
    {
      RequotedFurther(input, start, i, out, more);
      RequotedHead(input, i);
      if input[i] == '\\' && i + 1 < |input| {
        if input[i + 1] == '\'' {
          more := more + "'";
        } else {
          more := more + ['\\', input[i + 1]];
        }
        i := i + 2;
      } else if input[i] == '"' {
        more := more + "\\\"";
        i := i + 1;
      } else {
        more := more + [input[i]];
        i := i + 1;
      }
    }
    RequotedEnd(input, start, i, out, more);
    if i < |input| {
      i := i + 1;
    }
  }

  method WordEnd(u: Unicode, input: string, start: nat) returns (i: nat)
    requires start <= |input|
    ensures i == start + WordLength(u, input[start..]) <= |input|
  {
    i := start;
    while i < |input| && InWord(u, input[i])
      invariant start <= i <= |input| && WordLength(u, input[start..]) == i - start + WordLength(u, input[i..])
    {
      Suffixes(input, i, 1);
      i := i + 1;
    }
  }

  lemma WordPieceParts(u: Unicode, s: string, prev: Option<char>, word: string, rest: string)
    requires s != "" && InWord(u, s[0]) && |word| == WordLength(u, s) && word == s[..|word|] && rest == s[|word|..]
    ensures WordPiece(u, s, prev) == WordPieceFrom(ConstructorCall(word, rest), word, prev, NextInk(rest))
  {
  }

  function WordPieceFrom(call: Option<Piece>, word: string, prev: Option<char>, next: Option<char>): Piece {
    if call.Some? then Piece(call.value.text, |word| + call.value.used)
    else if IsKeyPlace(prev, next) then Piece("\"" + word + "\"", |word|)
    else Piece(word, |word|)
  }

  /** A word: a constructor call, an unquoted key, or a value kept as it is. */
  method RelaxWord(u: Unicode, input: string, start: nat, out: string) returns (more: string, i: nat)
    requires start < |input| && InWord(u, input[start])
    ensures var p := WordPiece(u, input[start..], LastInk(None, out));
      i == start + p.used <= |input| && more == out + p.text
  {
    i := WordEnd(u, input, start);
    var word := input[start..i];
    var prev, next := LastInk(None, out), NextInk(input[i..]);
    Slices(input, start, i - start);
    Suffixes(input, start, i - start);
    WordPieceParts(u, input[start..], prev, word, input[i..]);
    var call := ConstructorCallAt(word, input, i);
    if call.Some? {
      more := out + call.value.text;
      i := i + call.value.used;
    } else if (prev == Some('{') || prev == Some(',')) && next == Some(':') {
      more := out + ("\"" + word + "\"");
    } else {
      more := out + word;
    }
  }

  method CopyDouble(input: string, start: nat, out: string) returns (more: string, i: nat)
    requires start < |input| && input[start] == '"'
    ensures var p := DoublePiece(input[start..]); i == start + p.used <= |input| && more == out + p.text
  {
    more, i := JsComments.CopyLiteral(input, start, out);
    Suffixes(input, start, 1);
    Slices(input, start, i - start);
  }

  method RelaxSingle(input: string, start: nat, out: string) returns (more: string, i: nat)
    requires start < |input| && input[start] == '\''
    ensures var p := SinglePiece(input[start..]); i == start + p.used <= |input| && more == out + p.text
  {
    Suffixes(input, start, 1);
    more, i := RequoteSingle(input, start + 1, out + "\"");
    more := more + "\"";
    var inside := SingleQuoted(input[start + 1..]).text;
    assert out + "\"" + inside + "\"" == out + ("\"" + inside + "\"");
  }

  method RelaxPiece(u: Unicode, input: string, start: nat, out: string) returns (more: string, i: nat)
    requires start < |input|
    ensures var p := NextPiece(u, input[start..], LastInk(None, out));
      i == start + p.used <= |input| && more == out + p.text
  {
    var c := input[start];
    if c == '"' {
      more, i := CopyDouble(input, start, out);
    } else if c == '\'' {
      more, i := RelaxSingle(input, start, out);
    } else if StartsWord(u, c) {
      more, i := RelaxWord(u, input, start, out);
    } else if c == ',' {
      Suffixes(input, start, 1);
      var next := NextInk(input[start + 1..]);
      more := if next == Some('}') || next == Some(']') then out else out + ",";
      i := start + 1;
    } else {
      more := out + [c];
      i := start + 1;
    }
  }

  lemma RelaxStep(u: Unicode, s: string, out: string)
    requires s != ""
    ensures var p := NextPiece(u, s, LastInk(None, out));
      out + RelaxFrom(u, s, LastInk(None, out))
      == out + p.text + RelaxFrom(u, s[p.used..], LastInk(None, out + p.text))
  {
    var p := NextPiece(u, s, LastInk(None, out));
    LastInkConcat(None, out, p.text);
    Assoc(out, p.text, RelaxFrom(u, s[p.used..], LastInk(None, out + p.text)));
  }

  /** The text rewritten so far and the rest of the input make up the whole result. */
  predicate RelaxedSoFar(u: Unicode, input: string, i: nat, out: string) {
    i <= |input| && out + RelaxFrom(u, input[i..], LastInk(None, out)) == Relax(u, input)
  }

  lemma RelaxedFurther(u: Unicode, input: string, i: nat, out: string)
    requires i < |input| && RelaxedSoFar(u, input, i, out)
    ensures var p := NextPiece(u, input[i..], LastInk(None, out));
      RelaxedSoFar(u, input, i + p.used, out + p.text)
  {
    RelaxStep(u, input[i..], out);
    Suffixes(input, i, NextPiece(u, input[i..], LastInk(None, out)).used);
  }

  method RelaxTurn(u: Unicode, input: string, start: nat, out: string) returns (more: string, i: nat)
    requires start < |input| && RelaxedSoFar(u, input, start, out)
    ensures start < i && RelaxedSoFar(u, input, i, more)
  {
    hide *;
    RelaxedFurther(u, input, start, out);
    more, i := RelaxPiece(u, input, start, out);
  }

  method RelaxText(u: Unicode, input: string) returns (out: string)
    ensures out == Relax(u, input)
  {
    out := "";
    var i := 0;
    while i < |input|
      invariant RelaxedSoFar(u, input, i, out)
    {
      out, i := RelaxTurn(u, input, i, out);
    }
  }
}
