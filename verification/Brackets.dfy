/** Finding the end of a call and the commas between its arguments, with brackets inside string
    literals not counted. */
module Brackets {
  import opened Text

  /** What a scan counts as brackets: a call's end looks at all three kinds, the argument splitter at
      braces and square brackets only. */
  datatype Kind = AllBrackets | BracesOnly

  datatype State = State(depth: int, quote: Option<char>, escaped: bool)

  predicate Opens(kind: Kind, c: char) {
    c == '{' || c == '[' || (c == '(' && kind.AllBrackets?)
  }

  predicate Closes(kind: Kind, c: char) {
    c == '}' || c == ']' || (c == ')' && kind.AllBrackets?)
  }

  function Level(depth: int): State {
    State(depth, None, false)
  }

  function Step(kind: Kind, st: State, c: char): State {
    if st.quote.Some? then
      if st.escaped then st.(escaped := false)
      else if c == '\\' then st.(escaped := true)
      else if c == st.quote.value then st.(quote := None)
      else st
    else if c == '"' || c == '\'' then st.(quote := Some(c))
    else if Opens(kind, c) then st.(depth := st.depth + 1)
    else if Closes(kind, c) then st.(depth := st.depth - 1)
    else st
  }

  function Run(kind: Kind, st: State, s: string): State
    decreases |s|
  {
    if s == [] then st else Run(kind, Step(kind, st, s[0]), s[1..])
  }

  /** A character outside strings and outside all brackets. */
  predicate AtTop(st: State) {
    st.quote.None? && st.depth == 0
  }

  lemma {:induction false} RunConcat(kind: Kind, st: State, a: string, b: string)
    ensures Run(kind, st, a + b) == Run(kind, Run(kind, st, a), b)
    decreases |a|
  {
    if a == [] {
      assert a + b == b;
    } else {
      RunConcat(kind, Step(kind, st, a[0]), a[1..], b);
      assert (a + b)[1..] == a[1..] + b;
    }
  }

  lemma RunOne(kind: Kind, st: State, c: char)
    ensures Run(kind, st, [c]) == Step(kind, st, c)
  {
    assert [c][1..] == [];
  }

  lemma RunSnoc(kind: Kind, st: State, s: string, i: nat)
    requires i < |s|
    ensures Run(kind, st, s[..i + 1]) == Step(kind, Run(kind, st, s[..i]), s[i])
  {
    assert s[..i + 1] == s[..i] + [s[i]];
    RunConcat(kind, st, s[..i], [s[i]]);
    RunOne(kind, Run(kind, st, s[..i]), s[i]);
  }

  // ----- the end of a call

  /** A closing parenthesis outside strings, with every bracket before it closed. */
  predicate IsClose(text: string, k: nat) {
    k < |text| && text[k] == ')' && AtTop(Run(AllBrackets, Level(0), text[..k]))
  }

  /** The position of the first one. */
  function CloseFrom(st: State, text: string): (r: Option<nat>)
    ensures r.Some? ==> r.value < |text|
    decreases |text|
  {
    if text == [] then None
    else if AtTop(st) && text[0] == ')' then Some(0)
    else
      var r := CloseFrom(Step(AllBrackets, st, text[0]), text[1..]);
      if r.None? then None else Some(r.value + 1)
  }

  function CloseParen(text: string): (r: Option<nat>)
    ensures r.Some? ==> r.value < |text|
  {
    CloseFrom(Level(0), text)
  }

  lemma {:induction false} CloseIsFirst(st: State, text: string, k: nat)
    requires k < |text|
    ensures CloseFrom(st, text) == Some(k) <==>
      (text[k] == ')' && AtTop(Run(AllBrackets, st, text[..k]))
       && forall j: nat | j < k :: !(text[j] == ')' && AtTop(Run(AllBrackets, st, text[..j]))))
    decreases |text|
  {
    assert Run(AllBrackets, st, text[..0]) == st;
    if k > 0 && !(AtTop(st) && text[0] == ')') {
      var next := Step(AllBrackets, st, text[0]);
      CloseIsFirst(next, text[1..], k - 1);
      forall j: nat | 0 < j <= k ensures Run(AllBrackets, st, text[..j]) == Run(AllBrackets, next, text[1..][..j - 1]) {
        assert text[..j][1..] == text[1..][..j - 1];
      }
      assert forall j: nat | j < k - 1 :: text[1..][j] == text[j + 1];
      assert forall j: nat | 0 < j < k :: text[j] == text[1..][j - 1];
    }
  }

  lemma FirstClose(text: string, k: nat)
    requires k < |text|
    ensures CloseParen(text) == Some(k) <==> IsClose(text, k) && forall j: nat | j < k :: !IsClose(text, j)
  {
    CloseIsFirst(Level(0), text, k);
    assert forall j: nat | j < k ::
      IsClose(text, j) == (text[j] == ')' && AtTop(Run(AllBrackets, Level(0), text[..j])));
  }

  lemma CloseParenIs(text: string, r: Option<nat>)
    requires r.Some? ==> IsClose(text, r.value) && forall j: nat | j < r.value :: !IsClose(text, j)
    requires r.None? ==> forall j: nat :: !IsClose(text, j)
    ensures r == CloseParen(text)
  {
    var found := CloseParen(text);
    if r.Some? {
      FirstClose(text, r.value);
    } else if found.Some? {
      FirstClose(text, found.value);
    }
  }

  method FindMatchingCloseParen(text: string) returns (close: Option<nat>)
    ensures close == CloseParen(text)
    ensures close.Some? ==> IsClose(text, close.value) && forall j: nat | j < close.value :: !IsClose(text, j)
    ensures close.None? ==> forall j: nat :: !IsClose(text, j)
  {
    var depth, quote, escaped := 0, None, false;
    var i := 0;
    while i < |text|
      invariant 0 <= i <= |text|
      invariant State(depth, quote, escaped) == Run(AllBrackets, Level(0), text[..i])
      invariant forall j: nat | j < i :: !IsClose(text, j)
    {
      var c := text[i];
      RunSnoc(AllBrackets, Level(0), text, i);
      if quote.Some? {
        if escaped {
          escaped := false;
        } else if c == '\\' {
          escaped := true;
        } else if c == quote.value {
          quote := None;
        }
      } else if c == '"' || c == '\'' {
        quote := Some(c);
      } else if c == '(' || c == '{' || c == '[' {
        depth := depth + 1;
      } else if c == ')' && depth == 0 {
        close := Some(i);
        CloseParenIs(text, close);
        return;
      } else if c == ')' || c == '}' || c == ']' {
        depth := depth - 1;
      }
      i := i + 1;
    }
    assert text[..i] == text;
    close := None;
    CloseParenIs(text, close);
  }

  // ----- the commas between arguments

  datatype ArgsError = UnbalancedBraces

  /** `p` written in front of the first piece. */
  function Ahead(p: string, pieces: seq<string>): (r: seq<string>)
    requires pieces != []
    ensures |r| == |pieces|
  {
    [p + pieces[0]] + pieces[1..]
  }

  /** The text cut at its commas outside strings, braces and square brackets. */
  function Pieces(st: State, s: string): (r: seq<string>)
    ensures r != []
    decreases |s|
  {
    if s == [] then [""]
    else if AtTop(st) && s[0] == ',' then [""] + Pieces(Step(BracesOnly, st, ','), s[1..])
    else Ahead([s[0]], Pieces(Step(BracesOnly, st, s[0]), s[1..]))
  }

  function Arguments(input: string): Result<seq<string>, ArgsError> {
    var text := Trim(input);
    if text == "" then Ok([])
    else if Run(BracesOnly, Level(0), text).depth != 0 then Err(UnbalancedBraces)
    else Ok(Pieces(Level(0), text))
  }

  lemma AheadAhead(p: string, c: char, pieces: seq<string>)
    requires pieces != []
    ensures Ahead(p, Ahead([c], pieces)) == Ahead(p + [c], pieces)
  {
    assert p + ([c] + pieces[0]) == p + [c] + pieces[0];
  }

  lemma AheadNothing(pieces: seq<string>)
    requires pieces != []
    ensures Ahead("", pieces) == pieces
  {
    assert "" + pieces[0] == pieces[0];
  }

  /** One turn of the splitter, with the piece begun at `start`. */
  lemma PiecesTurn(st: State, text: string, start: nat, i: nat)
    requires start <= i < |text|
    ensures var more := Pieces(Step(BracesOnly, st, text[i]), text[i + 1..]);
      Ahead(text[start..i], Pieces(st, text[i..]))
      == if AtTop(st) && text[i] == ',' then [text[start..i]] + more else Ahead(text[start..i + 1], more)
  {
    assert text[i..][1..] == text[i + 1..];
    var more := Pieces(Step(BracesOnly, st, text[i]), text[i + 1..]);
    if AtTop(st) && text[i] == ',' {
      assert text[start..i] + "" == text[start..i];
    } else {
      AheadAhead(text[start..i], text[i], more);
      assert text[start..i] + [text[i]] == text[start..i + 1];
    }
  }

  lemma CommaTurn(args: seq<string>, piece: string, more: seq<string>)
    requires more != []
    ensures args + ([piece] + more) == args + [piece] + Ahead("", more)
  {
    AheadNothing(more);
  }

  /** The arguments found so far, the piece begun at `start` and the rest make up the whole. */
  predicate SplitSoFar(text: string, args: seq<string>, start: nat, i: nat, st: State) {
    && start <= i <= |text| && st == Run(BracesOnly, Level(0), text[..i])
    && args + Ahead(text[start..i], Pieces(st, text[i..])) == Pieces(Level(0), text)
  }

  lemma SplitStart(text: string)
    ensures SplitSoFar(text, [], 0, 0, Level(0))
  {
    AheadNothing(Pieces(Level(0), text));
    assert text[0..] == text && text[0..0] == "" && text[..0] == "";
  }

  lemma SplitStep(text: string, args: seq<string>, start: nat, i: nat, st: State)
    requires i < |text| && SplitSoFar(text, args, start, i, st)
    ensures var next := Step(BracesOnly, st, text[i]);
      if AtTop(st) && text[i] == ',' then SplitSoFar(text, args + [text[start..i]], i + 1, i + 1, next)
      else SplitSoFar(text, args, start, i + 1, next)
  {
    RunSnoc(BracesOnly, Level(0), text, i);
    PiecesTurn(st, text, start, i);
    if AtTop(st) && text[i] == ',' {
      CommaTurn(args, text[start..i], Pieces(Step(BracesOnly, st, ','), text[i + 1..]));
      assert text[i + 1..i + 1] == "";
    }
  }

  lemma SplitEnd(text: string, args: seq<string>, start: nat, st: State)
    requires SplitSoFar(text, args, start, |text|, st)
    ensures st == Run(BracesOnly, Level(0), text) && args + [text[start..]] == Pieces(Level(0), text)
  {
    assert text[..|text|] == text && text[|text|..] == "" && text[start..|text|] + "" == text[start..];
  }

  method SplitTopLevelArgs(input: string) returns (r: Result<seq<string>, ArgsError>)
    ensures r == Arguments(input)
  {
    var text := Trim(input);
    if text == "" {
      return Ok([]);
    }
    var args: seq<string> := [];
    var depth, quote, escaped := 0, None, false;
    var start, i := 0, 0;
    SplitStart(text);
    while i < |text|
      invariant 0 <= start <= i <= |text| && SplitSoFar(text, args, start, i, State(depth, quote, escaped))
    {
      var c := text[i];
      SplitStep(text, args, start, i, State(depth, quote, escaped));
      if quote.Some? {
        if escaped {
          escaped := false;
        } else if c == '\\' {
          escaped := true;
        } else if c == quote.value {
          quote := None;
        }
      } else if c == '"' || c == '\'' {
        quote := Some(c);
      } else if c == '{' || c == '[' {
        depth := depth + 1;
      } else if c == '}' || c == ']' {
        depth := depth - 1;
      } else if c == ',' && depth == 0 {
        args := args + [text[start..i]];
        start := i + 1;
      }
      i := i + 1;
    }
    SplitEnd(text, args, start, State(depth, quote, escaped));
    if depth != 0 {
      return Err(UnbalancedBraces);
    }
    args := args + [text[start..]];
    return Ok(args);
  }

  // ----- what the cuts mean

  /** No character of `s` outside strings and brackets is `stop`. */
  predicate Safe(kind: Kind, stop: char, st: State, s: string)
    decreases |s|
  {
    s == [] || (!(AtTop(st) && s[0] == stop) && Safe(kind, stop, Step(kind, st, s[0]), s[1..]))
  }

  lemma {:induction false} SafeConcat(kind: Kind, stop: char, st: State, a: string, b: string)
    ensures Safe(kind, stop, st, a + b) <==> Safe(kind, stop, st, a) && Safe(kind, stop, Run(kind, st, a), b)
    decreases |a|
  {
    if a == [] {
      assert a + b == b;
    } else {
      SafeConcat(kind, stop, Step(kind, st, a[0]), a[1..], b);
      assert (a + b)[1..] == a[1..] + b;
    }
  }

  /** Text that closes every string and bracket it opens and has no `stop` of its own. */
  predicate Whole(kind: Kind, stop: char, s: string) {
    Safe(kind, stop, Level(0), s) && Run(kind, Level(0), s) == Level(0)
  }

  /** Text in which every string is closed and every bracket has its partner, seen from a call: no
      unquoted `)` in it is at the level where it begins. */
  predicate Nested(s: string) {
    Whole(AllBrackets, ')', s)
  }

  /** An argument: no comma at its own level, strings and braces closed. */
  predicate IsArgument(s: string) {
    Whole(BracesOnly, ',', s)
  }

  // ----- what was found is whole

  /** Outside strings nothing is escaped. */
  predicate Steady(st: State) {
    st.quote.None? ==> !st.escaped
  }

  lemma {:induction false} RunSteady(kind: Kind, st: State, s: string)
    requires Steady(st)
    ensures Steady(Run(kind, st, s))
    decreases |s|
  {
    if s != [] {
      RunSteady(kind, Step(kind, st, s[0]), s[1..]);
    }
  }

  lemma {:induction false} SafeToClose(st: State, text: string, k: nat)
    requires CloseFrom(st, text) == Some(k)
    ensures Safe(AllBrackets, ')', st, text[..k]) && AtTop(Run(AllBrackets, st, text[..k]))
    decreases |text|
  {
    if k > 0 {
      SafeToClose(Step(AllBrackets, st, text[0]), text[1..], k - 1);
      assert text[..k][1..] == text[1..][..k - 1];
    } else {
      assert text[..k] == [];
    }
  }

  /** What stands in front of the close that is found is well nested. */
  lemma FoundIsNested(text: string, k: nat)
    requires CloseParen(text) == Some(k)
    ensures Nested(text[..k])
  {
    SafeToClose(Level(0), text, k);
    RunSteady(AllBrackets, Level(0), text[..k]);
  }

  /** The two scanners agree on where strings are. */
  lemma {:induction false} SameQuotes(a: State, b: State, s: string)
    requires a.quote == b.quote && a.escaped == b.escaped
    ensures var x, y := Run(AllBrackets, a, s), Run(BracesOnly, b, s); x.quote == y.quote && x.escaped == y.escaped
    decreases |s|
  {
    if s != [] {
      SameQuotes(Step(AllBrackets, a, s[0]), Step(BracesOnly, b, s[0]), s[1..]);
    }
  }

  lemma AfterPiece(piece: string, rest: string)
    requires Run(BracesOnly, Level(0), piece) == Level(0)
    ensures Run(BracesOnly, Level(0), piece + "," + rest) == Run(BracesOnly, Level(0), rest)
  {
    RunConcat(BracesOnly, Level(0), piece + ",", rest);
    RunConcat(BracesOnly, Level(0), piece, ",");
    RunOne(BracesOnly, Level(0), ',');
  }

  /** Pieces that are cut at commas are all arguments when the whole text closes what it opens. */
  lemma {:induction false} PiecesAreArguments(pieces: seq<string>)
    requires pieces != [] && forall i: nat | i < |pieces| :: PieceOk(Level(0), pieces, i)
    requires Run(BracesOnly, Level(0), Join(pieces, ",")) == Level(0)
    ensures forall i | 0 <= i < |pieces| :: IsArgument(pieces[i])
  {
    hide Safe, Run;
    assert PieceOk(Level(0), pieces, 0);
    if |pieces| > 1 {
      AfterPiece(pieces[0], Join(pieces[1..], ","));
      forall i: nat | i < |pieces[1..]| ensures PieceOk(Level(0), pieces[1..], i) {
        assert PieceOk(Level(0), pieces, i + 1);
      }
      PiecesAreArguments(pieces[1..]);
      assert forall i | 0 < i < |pieces| :: pieces[i] == pieces[1..][i - 1];
    }
  }

  lemma {:induction false} CloseAfterSafe(st: State, s: string, after: string)
    requires Safe(AllBrackets, ')', st, s) && Run(AllBrackets, st, s) == Level(0)
    ensures CloseFrom(st, s + ")" + after) == Some(|s|)
    decreases |s|
  {
    if s != [] {
      CloseAfterSafe(Step(AllBrackets, st, s[0]), s[1..], after);
      assert (s + ")" + after)[1..] == s[1..] + ")" + after;
    }
  }

  /** The close found after well-nested text is the one that was written for it. */
  lemma CloseAfterNested(s: string, after: string)
    requires Nested(s)
    ensures CloseParen(s + ")" + after) == Some(|s|)
  {
    CloseAfterSafe(Level(0), s, after);
  }

  lemma {:induction false} PiecesOfSafe(st: State, s: string)
    requires Safe(BracesOnly, ',', st, s)
    ensures Pieces(st, s) == [s]
    decreases |s|
  {
    if s != [] {
      PiecesOfSafe(Step(BracesOnly, st, s[0]), s[1..]);
      assert [s[0]] + s[1..] == s;
    }
  }

  lemma AheadJoin(c: char, s: string, pieces: seq<string>)
    ensures Ahead([c], [s] + pieces) == [[c] + s] + pieces
  {
  }

  lemma {:induction false} PiecesAfterSafe(st: State, s: string, more: string)
    requires Safe(BracesOnly, ',', st, s) && Run(BracesOnly, st, s) == Level(0)
    ensures Pieces(st, s + "," + more) == [s] + Pieces(Level(0), more)
    decreases |s|
  {
    var whole := s + "," + more;
    if s == [] {
      assert whole[1..] == more;
    } else {
      PiecesAfterSafe(Step(BracesOnly, st, s[0]), s[1..], more);
      assert whole[1..] == s[1..] + "," + more;
      AheadJoin(s[0], s[1..], Pieces(Level(0), more));
      assert [s[0]] + s[1..] == s;
    }
  }

  /** Cutting the comma-joined text of arguments gives back the arguments. */
  lemma {:induction false} PiecesUndoJoin(args: seq<string>)
    requires args != [] && forall k | 0 <= k < |args| :: IsArgument(args[k])
    ensures Pieces(Level(0), Join(args, ",")) == args
    ensures Run(BracesOnly, Level(0), Join(args, ",")) == Level(0)
  {
    if |args| == 1 {
      PiecesOfSafe(Level(0), args[0]);
    } else {
      var rest := Join(args[1..], ",");
      PiecesUndoJoin(args[1..]);
      PiecesAfterSafe(Level(0), args[0], rest);
      RunConcat(BracesOnly, Level(0), args[0] + ",", rest);
      RunConcat(BracesOnly, Level(0), args[0], ",");
      assert args[0] + "," + rest == (args[0] + ",") + rest;
      assert Run(BracesOnly, Level(0), ",") == Level(0) by { assert ","[1..] == ""; }
    }
  }

  lemma JoinAhead(c: char, pieces: seq<string>)
    requires pieces != []
    ensures Join(Ahead([c], pieces), ",") == [c] + Join(pieces, ",")
  {
    if |pieces| > 1 {
      assert Ahead([c], pieces)[1..] == pieces[1..];
    }
  }

  /** Joining the pieces with commas gives back the text, whatever it is. */
  lemma {:induction false} PiecesJoin(st: State, s: string)
    ensures Join(Pieces(st, s), ",") == s
    decreases |s|
  {
    if s != [] {
      var more := Pieces(Step(BracesOnly, st, s[0]), s[1..]);
      PiecesJoin(Step(BracesOnly, st, s[0]), s[1..]);
      if AtTop(st) && s[0] == ',' {
        assert ([""] + more)[1..] == more;
      } else {
        JoinAhead(s[0], more);
      }
    }
  }

  /** Joining the arguments with commas gives back the trimmed text; only blank text has none, and
      text is refused exactly when its braces do not balance. */
  lemma ArgumentsJoin(input: string)
    ensures Arguments(input).Err? <==> Run(BracesOnly, Level(0), Trim(input)).depth != 0
    ensures Arguments(input).Ok? ==>
      Join(Arguments(input).value, ",") == Trim(input) && (Arguments(input).value == [] <==> Trim(input) == "")
  {
    hide Trim;
    PiecesJoin(Level(0), Trim(input));
  }

  function PieceStart(st: State, i: nat): State {
    if i == 0 then st else Level(0)
  }

  predicate PieceOk(st: State, pieces: seq<string>, i: nat)
    requires i < |pieces|
  {
    && Safe(BracesOnly, ',', PieceStart(st, i), pieces[i])
    && (i < |pieces| - 1 ==> Run(BracesOnly, PieceStart(st, i), pieces[i]) == Level(0))
  }

  lemma PieceGrows(st: State, c: char, more: seq<string>)
    requires more != [] && PieceOk(Step(BracesOnly, st, c), more, 0) && !(AtTop(st) && c == ',')
    ensures PieceOk(st, Ahead([c], more), 0)
  {
    assert ([c] + more[0])[1..] == more[0];
  }

  /** No piece has a comma at its own level, and every piece but the last closes what it opens: with
      `PiecesJoin` this leaves only one way to cut the text. */
  lemma {:induction false} PiecesAreCutAtCommas(st: State, s: string)
    requires st.quote.None? ==> !st.escaped
    ensures forall i: nat | i < |Pieces(st, s)| :: PieceOk(st, Pieces(st, s), i)
    decreases |s|
  {
    if s != [] {
      var next := Step(BracesOnly, st, s[0]);
      var more := Pieces(next, s[1..]);
      PiecesAreCutAtCommas(next, s[1..]);
      assert PieceOk(next, more, 0);
      if !(AtTop(st) && s[0] == ',') {
        PieceGrows(st, s[0], more);
      }
      forall i: nat | 0 < i < |Pieces(st, s)| ensures PieceOk(st, Pieces(st, s), i) {
        assert PieceOk(next, more, if AtTop(st) && s[0] == ',' then i - 1 else i);
      }
    }
  }
}
