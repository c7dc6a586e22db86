/** The Elasticsearch connector's `curl` export, and a reader for the shell words it is made of. */
module CurlCommand {
  import opened Text

  /** Closes the quotes, writes an escaped quote, opens them again. */
  function ShellEscape(s: string): string {
    if s == [] then "" else (if s[0] == '\'' then "'\\''" else [s[0]]) + ShellEscape(s[1..])
  }

  function SingleQuoted(s: string): string {
    "'" + ShellEscape(s) + "'"
  }

  // ----- sections 2.2.1 and 2.2.2 of the POSIX Shell Command Language

  /** Characters that mean themselves outside quotes and do not end a word: none of those that
      section 2.2 lists as to be quoted, and none of a pattern. */
  predicate Ordinary(c: char) {
    c !in "|&;<>()$`\\\"' \t\n*?[" && c != '\0'
  }

  /** A tilde or a hash sign means something else at the start of a word. */
  predicate StartsPlain(c: char) {
    Ordinary(c) && c != '~' && c != '#'
  }

  /** The words of a simple command made of ordinary characters, escaped characters and
      single-quoted text; `None` for anything else. `word` is the word being read, if any. */
  function Words(s: string, word: Option<string>): Option<seq<string>>
    decreases |s|
  {
    if s == [] then Some(Closed(word))
    else if s[0] == ' ' then Then(Closed(word), Words(s[1..], None))
    else if s[0] == '\'' then
      var r := UpToQuote(s[1..]);
      if r.None? then None else Words(r.value.1, Some(Open(word) + r.value.0))
    else if s[0] == '\\' then
      if |s| == 1 || s[1] == '\n' then None else Words(s[2..], Some(Open(word) + [s[1]]))
    else if Ordinary(s[0]) && (word.Some? || StartsPlain(s[0])) then Words(s[1..], Some(Open(word) + [s[0]]))
    else None
  }

  /** The literal text of single quotes and what follows the closing one. */
  function UpToQuote(s: string): (r: Option<(string, string)>)
    ensures r.Some? ==> |r.value.1| < |s|
  {
    var quote := Find(s, '\'');
    if quote.None? then None else Some((s[..quote.value], s[quote.value + 1..]))
  }

  function Open(word: Option<string>): string {
    if word.None? then "" else word.value
  }

  function Closed(word: Option<string>): seq<string> {
    if word.None? then [] else [word.value]
  }

  function Then(words: seq<string>, more: Option<seq<string>>): Option<seq<string>> {
    if more.None? then None else Some(words + more.value)
  }

  // ----- reading what is written

  lemma ReadPlainQuotes(plain: string, word: Option<string>, rest: string)
    requires '\'' !in plain
    ensures Words("'" + plain + "'" + rest, word) == Words(rest, Some(Open(word) + plain))
  {
    FindAfter(plain, '\'', rest);
    assert ("'" + plain + "'" + rest)[1..] == plain + "'" + rest;
    assert (plain + "'" + rest)[..|plain|] == plain && (plain + "'" + rest)[|plain| + 1..] == rest;
  }

  lemma ReadEscapedQuote(word: string, rest: string)
    ensures Words("\\'" + rest, Some(word)) == Words(rest, Some(word + "'"))
  {
    assert ("\\'" + rest)[2..] == rest;
  }

  lemma {:induction false} EscapePlain(s: string)
    requires '\'' !in s
    ensures ShellEscape(s) == s
  {
    if s != [] {
      EscapePlain(s[1..]);
      assert s[0] in s && s == [s[0]] + s[1..];
    }
  }

  lemma {:induction false} EscapeSplit(plain: string, more: string)
    requires '\'' !in plain
    ensures ShellEscape(plain + "'" + more) == plain + "'\\''" + ShellEscape(more)
  {
    var s := plain + "'" + more;
    if plain == [] {
      assert s[1..] == more;
    } else {
      EscapeSplit(plain[1..], more);
      assert plain[0] in plain && s[1..] == plain[1..] + "'" + more;
      assert plain == [plain[0]] + plain[1..];
    }
  }

  /** Inside a word, single-quoted escaped text adds exactly the original text. */
  lemma {:induction false} ReadQuotedText(s: string, word: Option<string>, rest: string)
    ensures Words(SingleQuoted(s) + rest, word) == Words(rest, Some(Open(word) + s))
    decreases |s|
  {
    hide Words, ShellEscape, SingleQuoted;
    var quote := Find(s, '\'');
    if quote.None? {
      EscapePlain(s);
      QuotedIs(s);
      ReadPlainQuotes(s, word, rest);
    } else {
      var plain, more := s[..quote.value], s[quote.value + 1..];
      assert s == plain + "'" + more;
      ReadUpToQuote(plain, more, word, rest);
      ReadQuotedText(more, Some(Open(word) + plain + "'"), rest);
      assert Open(word) + plain + "'" + more == Open(word) + s;
    }
  }

  lemma QuotedIs(s: string)
    ensures SingleQuoted(s) == "'" + ShellEscape(s) + "'"
  {
  }

  lemma ReadUpToQuote(plain: string, more: string, word: Option<string>, rest: string)
    requires '\'' !in plain
    ensures Words(SingleQuoted(plain + "'" + more) + rest, word)
         == Words(SingleQuoted(more) + rest, Some(Open(word) + plain + "'"))
  {
    hide Words, ShellEscape;
    var tail := SingleQuoted(more) + rest;
    EscapeSplit(plain, more);
    assert SingleQuoted(plain + "'" + more) + rest == "'" + plain + "'" + ("\\'" + tail);
    ReadPlainQuotes(plain, word, "\\'" + tail);
    ReadEscapedQuote(Open(word) + plain, tail);
  }

  predicate AllOrdinary(s: string) {
    forall i | 0 <= i < |s| :: Ordinary(s[i])
  }

  /** A text that is a word without any quoting. */
  predicate IsBareWord(s: string) {
    s != [] && AllOrdinary(s) && StartsPlain(s[0])
  }

  lemma OrdinaryNext(c: char, word: string, rest: string)
    requires Ordinary(c)
    ensures Words([c] + rest, Some(word)) == Words(rest, Some(word + [c]))
  {
    assert ([c] + rest)[1..] == rest;
  }

  lemma {:induction false} ReadOrdinary(s: string, word: string, rest: string)
    requires AllOrdinary(s)
    ensures Words(s + rest, Some(word)) == Words(rest, Some(word + s))
    decreases |s|
  {
    hide Words, Ordinary;
    if s == [] {
      assert s + rest == rest && word + s == word;
    } else {
      ReadOrdinary(s[1..], word + [s[0]], rest);
      OrdinaryNext(s[0], word, s[1..] + rest);
      assert s + rest == [s[0]] + (s[1..] + rest);
      assert word + [s[0]] + s[1..] == word + s;
    }
  }

  lemma BareFirst(c: char, rest: string)
    requires StartsPlain(c)
    ensures Words([c] + rest, None) == Words(rest, Some([c]))
  {
    assert ([c] + rest)[1..] == rest && "" + [c] == [c];
  }

  lemma ReadBare(s: string, rest: string)
    requires IsBareWord(s)
    ensures Words(s + rest, None) == Words(rest, Some(s))
  {
    hide Words, Ordinary;
    BareFirst(s[0], s[1..] + rest);
    ReadOrdinary(s[1..], [s[0]], rest);
    assert s + rest == [s[0]] + (s[1..] + rest) && [s[0]] + s[1..] == s;
  }

  /** Whatever the string, in single quotes it is one word equal to itself. */
  lemma QuotedIsOneWord(s: string)
    ensures Words(SingleQuoted(s), None) == Some([s])
  {
    ReadQuotedText(s, None, "");
    assert SingleQuoted(s) + "" == SingleQuoted(s) && "" + s == s;
  }

  // ----- the command

  datatype Word = Bare(text: string) | Quoted(text: string)

  function Written(word: Word): string {
    match word
    case Bare(text) => text
    case Quoted(text) => SingleQuoted(text)
  }

  /** A command line: the words, one space between two. */
  function Line(words: seq<Word>): string {
    if words == [] then ""
    else if |words| == 1 then Written(words[0])
    else Written(words[0]) + " " + Line(words[1..])
  }

  function Texts(words: seq<Word>): seq<string> {
    if words == [] then [] else [words[0].text] + Texts(words[1..])
  }

  lemma ReadWord(word: Word, rest: string)
    requires word.Bare? ==> IsBareWord(word.text)
    ensures Words(Written(word) + rest, None) == Words(rest, Some(word.text))
  {
    if word.Bare? {
      ReadBare(word.text, rest);
    } else {
      ReadQuotedText(word.text, None, rest);
    }
    assert "" + word.text == word.text;
  }

  predicate Readable(words: seq<Word>) {
    forall i | 0 <= i < |words| && words[i].Bare? :: IsBareWord(words[i].text)
  }

  /** A line of words is read as exactly those words. */
  lemma {:induction false} ReadLine(words: seq<Word>)
    requires Readable(words)
    ensures Words(Line(words), None) == Some(Texts(words))
  {
    if words == [] {
    } else if |words| == 1 {
      ReadWord(words[0], "");
      assert Written(words[0]) + "" == Written(words[0]);
      assert Texts(words) == [words[0].text] + [] == [words[0].text];
      assert Words("", Some(words[0].text)) == Some([words[0].text]);
    } else {
      ReadLine(words[1..]);
      ReadBeforeSpace(words[0], Line(words[1..]));
    }
  }

  lemma ReadBeforeSpace(word: Word, line: string)
    requires word.Bare? ==> IsBareWord(word.text)
    ensures Words(Written(word) + " " + line, None) == Then([word.text], Words(line, None))
  {
    ReadWord(word, " " + line);
    assert (" " + line)[1..] == line;
    assert Written(word) + " " + line == Written(word) + (" " + line);
  }

  function Url(baseUrl: string, path: string): string {
    DropLast(baseUrl, '/') + "/" + DropFirst(path, '/')
  }

  function DropFirst(s: string, c: char): string {
    if s != [] && s[0] == c then DropFirst(s[1..], c) else s
  }

  function DropLast(s: string, c: char): string {
    if s != [] && s[|s| - 1] == c then DropLast(s[..|s| - 1], c) else s
  }

  function CurlLine(baseUrl: string, method_: string, path: string, body: Option<string>): seq<Word> {
    [Bare("curl"), Bare("-X"), Bare(method_)] + [Quoted(Url(baseUrl, path))] + BodyWords(body)
  }

  function BodyWords(body: Option<string>): seq<Word> {
    match body
    case None => []
    case Some(text) => [Bare("-H"), Quoted("Content-Type: application/json"), Bare("-d"), Quoted(text)]
  }

  /** The exported command. `method_` is already in upper case; one slash stands between the base
      URL and the path. The header value has no quote in it, so its escaped form is itself. */
  function ToCurl(baseUrl: string, method_: string, path: string, body: Option<string>): string {
    Line(CurlLine(baseUrl, method_, path, body))
  }

  // ----- methods that are not bare words

  /** Whatever is read into a word stays in it. */
  lemma {:induction false} WordGrows(s: string, word: string)
    ensures var r := Words(s, Some(word)); r.Some? ==> r.value != [] && word <= r.value[0]
    decreases |s|
  {
    if s == [] {
    } else if s[0] == ' ' {
    } else if s[0] == '\'' {
      var r := UpToQuote(s[1..]);
      if r.Some? {
        WordGrows(r.value.1, word + r.value.0);
      }
    } else if s[0] == '\\' {
      if |s| > 1 && s[1] != '\n' {
        WordGrows(s[2..], word + [s[1]]);
      }
    } else if Ordinary(s[0]) {
      WordGrows(s[1..], word + [s[0]]);
    }
  }

  /** The first word of what is read is not `m`, if anything is read. */
  predicate FirstIsNot(r: Option<seq<string>>, m: string) {
    r.Some? ==> r.value == [] || r.value[0] != m
  }

  /** A word that already has a space where `m` has none does not become `m`. */
  lemma SpaceInside(m: string, s: string, word: string, k: nat)
    requires ' ' !in m && k < |word| && k < |m| && word[k] == ' '
    ensures FirstIsNot(Words(s, Some(word)), m)
  {
    hide Words;
    WordGrows(s, word);
  }

  lemma QuoteUnfold(s: string, word: string)
    requires s != [] && s[0] == '\''
    ensures var r := UpToQuote(s[1..]);
      Words(s, Some(word)) == if r.None? then None else Words(r.value.1, Some(word + r.value.0))
  {
  }

  /** The closing quote is in `inside`, or the quoted text has the space behind it. */
  lemma QuoteEnds(inside: string, rest: string)
    ensures var r := UpToQuote(inside + " " + rest); r.Some? ==>
      if |r.value.0| < |inside| then r.value.1 == inside[|r.value.0| + 1..] + " " + rest
      else |r.value.0| > |inside| && r.value.0[|inside|] == ' '
  {
    var s := inside + " " + rest;
    var quote := Find(s, '\'');
    if quote.Some? && quote.value < |inside| {
      assert s[quote.value + 1..] == inside[quote.value + 1..] + " " + rest;
    } else {
      assert s[|inside|] == ' ';
    }
  }

  lemma QuoteTurn(m: string, i: nat, rest: string, word: string)
    requires i < |m| && m[i] == '\'' && |word| <= i && ' ' !in m
    requires forall e, w | i < e <= |m| && |w| < e :: FirstIsNot(Words(m[e..] + " " + rest, Some(w)), m)
    ensures FirstIsNot(Words(m[i..] + " " + rest, Some(word)), m)
  {
    hide Words, UpToQuote;
    var s, inside := m[i..] + " " + rest, m[i + 1..];
    QuoteUnfold(s, word);
    assert s[1..] == inside + " " + rest;
    QuoteEnds(inside, rest);
    var r := UpToQuote(s[1..]);
    if r.Some? {
      var q, after := r.value.0, r.value.1;
      if |q| < |inside| {
        var e := i + 1 + |q| + 1;
        assert inside[|q| + 1..] == m[e..];
        assert FirstIsNot(Words(m[e..] + " " + rest, Some(word + q)), m);
      } else {
        assert (word + q)[|word| + |inside|] == ' ';
        SpaceInside(m, after, word + q, |word| + |inside|);
      }
    }
  }

  lemma EscapeTurn(m: string, i: nat, rest: string, word: string)
    requires i < |m| && m[i] == '\\' && |word| <= i && ' ' !in m
    requires forall e, w | i < e <= |m| && |w| < e :: FirstIsNot(Words(m[e..] + " " + rest, Some(w)), m)
    ensures FirstIsNot(Words(m[i..] + " " + rest, Some(word)), m)
  {
    var s := m[i..] + " " + rest;
    if i + 1 < |m| {
      assert s[2..] == m[i + 2..] + " " + rest;
      assert FirstIsNot(Words(m[i + 2..] + " " + rest, Some(word + [m[i + 1]])), m);
    } else {
      assert s[1] == ' ';
      SpaceInside(m, s[2..], word + [' '], |word|);
    }
  }

  lemma OrdinaryTurn(m: string, i: nat, rest: string, word: string)
    requires i < |m| && Ordinary(m[i])
    ensures Words(m[i..] + " " + rest, Some(word)) == Words(m[i + 1..] + " " + rest, Some(word + [m[i]]))
  {
    assert (m[i..] + " " + rest)[1..] == m[i + 1..] + " " + rest;
  }

  lemma SpecialTurn(m: string, i: nat, rest: string, word: string)
    requires i < |m| && !Ordinary(m[i]) && m[i] != ' ' && m[i] != '\'' && m[i] != '\\'
    ensures Words(m[i..] + " " + rest, Some(word)) == None
  {
    hide Ordinary;
  }

  lemma SpaceTurn(rest: string, word: string)
    ensures FirstIs(Words(" " + rest, Some(word)), word)
  {
  }

  predicate FirstIs(r: Option<seq<string>>, m: string) {
    r.Some? ==> r.value != [] && r.value[0] == m
  }

  /** Once a quote or a backslash has been taken, the word has fewer characters than were read for it and
      cannot become the whole text any more. */
  lemma {:induction false} WordLags(m: string, i: nat, rest: string, word: string)
    requires i <= |m| && |word| < i && ' ' !in m
    ensures FirstIsNot(Words(m[i..] + " " + rest, Some(word)), m)
    decreases |m| - i
  {
    hide Words, Ordinary;
    if i == |m| {
      SpaceTurn(rest, word);
      assert m[i..] + " " + rest == " " + rest;
    } else {
      forall e, w | i < e <= |m| && |w| < e ensures FirstIsNot(Words(m[e..] + " " + rest, Some(w)), m) {
        WordLags(m, e, rest, w);
      }
      if Ordinary(m[i]) {
        OrdinaryTurn(m, i, rest, word);
      } else if m[i] == '\'' {
        QuoteTurn(m, i, rest, word);
      } else if m[i] == '\\' {
        EscapeTurn(m, i, rest, word);
      } else {
        SpecialTurn(m, i, rest, word);
      }
    }
  }

  /** Up to the first character that is not ordinary the word is read as it is written; there it is lost. */
  lemma {:induction false} WordIsLost(m: string, i: nat, rest: string)
    requires i < |m| && !AllOrdinary(m[i..]) && ' ' !in m
    ensures FirstIsNot(Words(m[i..] + " " + rest, Some(m[..i])), m)
    decreases |m| - i
  {
    hide Words, Ordinary;
    forall e, w | i < e <= |m| && |w| < e ensures FirstIsNot(Words(m[e..] + " " + rest, Some(w)), m) {
      WordLags(m, e, rest, w);
    }
    if Ordinary(m[i]) {
      OrdinaryTurn(m, i, rest, m[..i]);
      assert m[i..] == [m[i]] + m[i + 1..];
      assert m[..i] + [m[i]] == m[..i + 1];
      WordIsLost(m, i + 1, rest);
    } else if m[i] == '\'' {
      QuoteTurn(m, i, rest, m[..i]);
    } else if m[i] == '\\' {
      EscapeTurn(m, i, rest, m[..i]);
    } else {
      SpecialTurn(m, i, rest, m[..i]);
    }
  }

  lemma EmptyStart(s: string)
    requires s != [] && (s[0] == '\'' || s[0] == '\\')
    ensures Words(s, None) == Words(s, Some(""))
  {
  }

  /** What is not a bare word is not read as the word that it is. */
  lemma NotBare(m: string, rest: string)
    requires ' ' !in m && m != [] && !IsBareWord(m)
    ensures FirstIsNot(Words(m + " " + rest, None), m)
  {
    var s := m + " " + rest;
    assert m[0..] == m && m[..0] == "";
    if m[0] == '\'' || m[0] == '\\' {
      EmptyStart(s);
      WordIsLost(m, 0, rest);
    } else if StartsPlain(m[0]) {
      assert s[1..] == m[1..] + " " + rest && "" + [m[0]] == m[..1];
      assert m == [m[0]] + m[1..];
      WordIsLost(m, 1, rest);
    }
  }

  // ----- the main result

  lemma CurlReadable(baseUrl: string, method_: string, path: string, body: Option<string>)
    requires IsBareWord(method_)
    ensures Readable(CurlLine(baseUrl, method_, path, body))
  {
    hide IsBareWord;
    FixedAreBare();
  }

  lemma LettersArePlain(c: char)
    requires 'a' <= c <= 'z' || 'A' <= c <= 'Z' || c == '-'
    ensures StartsPlain(c) && Ordinary(c)
  {
  }

  lemma FixedAreBare()
    ensures IsBareWord("curl") && IsBareWord("-X") && IsBareWord("-H") && IsBareWord("-d")
  {
    hide Ordinary;
    forall c: char | 'a' <= c <= 'z' || 'A' <= c <= 'Z' || c == '-' ensures StartsPlain(c) && Ordinary(c) {
      LettersArePlain(c);
    }
  }

  lemma CurlStart(baseUrl: string, method_: string, path: string, body: Option<string>) returns (rest: string)
    ensures ToCurl(baseUrl, method_, path, body) == "curl" + " " + ("-X" + " " + (method_ + " " + rest))
  {
    hide Url, BodyWords;
    var line := CurlLine(baseUrl, method_, path, body);
    rest := Line(line[3..]);
    assert line[1..][1..] == line[2..] && line[2..][1..] == line[3..];
    LineFirst(line);
    LineFirst(line[1..]);
    LineFirst(line[2..]);
    Regroup("curl", Line(line[1..]));
    Regroup("-X", Line(line[2..]));
  }

  lemma LineFirst(words: seq<Word>)
    requires |words| > 1
    ensures Line(words) == Written(words[0]) + " " + Line(words[1..])
  {
  }

  lemma Regroup(a: string, b: string)
    ensures a + " " + b == a + (" " + b)
  {
  }

  lemma ThirdWord(method_: string, rest: string)
    ensures Words("curl" + " " + ("-X" + " " + (method_ + " " + rest)), None)
      == Then(["curl"], Then(["-X"], Words(method_ + " " + rest, None)))
  {
    hide Words, IsBareWord;
    FixedAreBare();
    ReadBeforeSpace(Bare("curl"), "-X" + " " + (method_ + " " + rest));
    ReadBeforeSpace(Bare("-X"), method_ + " " + rest);
  }

  /** The shell sees `curl`, the method, the URL and the body that were asked for exactly when the
      method is a bare word. A method is the text up to the first whitespace. */
  lemma CurlWordsIff(baseUrl: string, method_: string, path: string, body: Option<string>)
    requires method_ != [] && ' ' !in method_
    ensures Words(ToCurl(baseUrl, method_, path, body), None) == Some(Texts(CurlLine(baseUrl, method_, path, body)))
      <==> IsBareWord(method_)
  {
    hide Words, ToCurl, CurlLine;
    if IsBareWord(method_) {
      CurlReadable(baseUrl, method_, path, body);
      ReadLine(CurlLine(baseUrl, method_, path, body));
      CurlIsLine(baseUrl, method_, path, body);
    } else {
      var rest := CurlStart(baseUrl, method_, path, body);
      ThirdWord(method_, rest);
      NotBare(method_, rest);
      ThirdText(baseUrl, method_, path, body);
    }
  }

  lemma CurlIsLine(baseUrl: string, method_: string, path: string, body: Option<string>)
    ensures ToCurl(baseUrl, method_, path, body) == Line(CurlLine(baseUrl, method_, path, body))
  {
  }

  lemma ThirdText(baseUrl: string, method_: string, path: string, body: Option<string>)
    ensures var texts := Texts(CurlLine(baseUrl, method_, path, body)); |texts| >= 3 && texts[2] == method_
  {
    hide Url, BodyWords;
    var line := CurlLine(baseUrl, method_, path, body);
    assert Texts(line)[1..] == Texts(line[1..]);
    assert Texts(line[1..])[1..] == Texts(line[1..][1..]);
    assert line[1..][1..][0] == Bare(method_);
  }

  lemma {:induction false} SlashesGo(b: string, n: nat, p: string)
    requires (b != "" ==> b[|b| - 1] != '/') && (p != "" ==> p[0] != '/')
    ensures DropLast(b + Repeat('/', n), '/') == b && DropFirst(Repeat('/', n) + p, '/') == p
  {
    var slashes := Repeat('/', n);
    if n == 0 {
      assert b + slashes == b && slashes + p == p;
    } else {
      SlashesGo(b, n - 1, p);
      assert (b + slashes)[..|b| + n - 1] == b + Repeat('/', n - 1);
      assert (slashes + p)[1..] == Repeat('/', n - 1) + p;
    }
  }

  /** The words that were asked for: the URL has one slash between base and path, however many were
      given, and a body comes with its header and unchanged. */
  function AskedFor(method_: string, base: string, path: string, body: Option<string>): seq<string> {
    var request := ["curl", "-X", method_, base + "/" + path];
    match body
    case None => request
    case Some(text) => request + ["-H", "Content-Type: application/json", "-d", text]
  }

  lemma AskedForIs(method_: string, base: string, path: string, body: Option<string>, i: nat, j: nat)
    requires (base != "" ==> base[|base| - 1] != '/') && (path != "" ==> path[0] != '/')
    ensures Texts(CurlLine(base + Repeat('/', i), method_, Repeat('/', j) + path, body))
         == AskedFor(method_, base, path, body)
  {
    hide DropLast, DropFirst, Texts;
    SlashesGo(base, i, path);
    SlashesGo(base, j, path);
    var url := base + "/" + path;
    var line := [Bare("curl"), Bare("-X"), Bare(method_), Quoted(url)];
    match body
    case None =>
      assert CurlLine(base + Repeat('/', i), method_, Repeat('/', j) + path, body) == line;
      TextsOf(line);
    case Some(text) =>
      var more := [Bare("-H"), Quoted("Content-Type: application/json"), Bare("-d"), Quoted(text)];
      assert CurlLine(base + Repeat('/', i), method_, Repeat('/', j) + path, body) == line + more;
      TextsOf(line + more);
  }

  lemma {:induction false} TextsOf(words: seq<Word>)
    ensures |Texts(words)| == |words| && forall i | 0 <= i < |words| :: Texts(words)[i] == words[i].text
  {
    if words != [] {
      TextsOf(words[1..]);
    }
  }

  /** So the shell sees just those words, and it does exactly when the method is a bare word. */
  lemma CurlReadsIff(method_: string, base: string, path: string, body: Option<string>, i: nat, j: nat)
    requires method_ != "" && ' ' !in method_
    requires (base != "" ==> base[|base| - 1] != '/') && (path != "" ==> path[0] != '/')
    ensures var read := Words(ToCurl(base + Repeat('/', i), method_, Repeat('/', j) + path, body), None);
      read == Some(AskedFor(method_, base, path, body)) <==> IsBareWord(method_)
  {
    hide Words, ToCurl, CurlLine, Texts;
    AskedForIs(method_, base, path, body, i, j);
    CurlWordsIff(base + Repeat('/', i), method_, Repeat('/', j) + path, body);
  }

  /** A method that a request line can hold: the shell takes it for two commands. */
  lemma SemicolonInMethod(baseUrl: string, path: string, body: Option<string>)
    ensures Words(ToCurl(baseUrl, "A;B", path, body), None) != Some(Texts(CurlLine(baseUrl, "A;B", path, body)))
  {
    hide Words, ToCurl, CurlLine;
    assert !Ordinary("A;B"[1]);
    CurlWordsIff(baseUrl, "A;B", path, body);
  }
}
