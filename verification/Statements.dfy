/** How a console buffer is cut into statements, for the MongoDB and the Elasticsearch connector:
    one rule over lines, with the connector's own test for a line that opens a statement. */
module Statements {
  import opened Text

  datatype Statement = Statement(text: string, start: nat, end: nat)

  // ----- lines

  /** The end of the line that `o` is in, its newline included. */
  function LineStop(text: string, o: nat): (r: nat)
    requires o <= |text|
    ensures o <= r <= |text| && (o < |text| ==> o < r)
    ensures r < |text| ==> text[r - 1] == '\n'
    decreases |text| - o
  {
    if o == |text| then o else if text[o] == '\n' then o + 1 else LineStop(text, o + 1)
  }

  predicate IsLineStart(text: string, o: nat) {
    o < |text| && (o == 0 || text[o - 1] == '\n')
  }

  predicate Blank(text: string, from: nat, to: nat)
    requires from <= to <= |text|
  {
    forall k | from <= k < to :: IsWhitespace(text[k])
  }

  /** The first character of a line that is not whitespace. */
  function InkStart(text: string, o: nat, stop: nat): nat
    requires o <= stop <= |text|
  {
    o + (stop - o) - |TrimStart(text[o..stop])|
  }

  function InkEnd(text: string, o: nat, stop: nat): nat
    requires o <= stop <= |text|
  {
    InkStart(text, o, stop) + |Trim(text[o..stop])|
  }

  lemma {:induction false} TrimStartSuffix(s: string)
    ensures TrimStart(s) == s[|s| - |TrimStart(s)|..]
    ensures forall k | 0 <= k < |s| - |TrimStart(s)| :: IsWhitespace(s[k])
  {
    if s != [] && IsWhitespace(s[0]) {
      TrimStartSuffix(s[1..]);
      assert s[1..][|s[1..]| - |TrimStart(s)|..] == s[|s| - |TrimStart(s)|..];
      assert forall k | 0 < k < |s| :: s[k] == s[1..][k - 1];
    }
  }

  lemma {:induction false} TrimEndPrefix(s: string)
    ensures forall k | |TrimEnd(s)| <= k < |s| :: IsWhitespace(s[k])
  {
    if s != [] && IsWhitespace(s[|s| - 1]) {
      TrimEndPrefix(s[..|s| - 1]);
      assert forall k | 0 <= k < |s| - 1 :: s[k] == s[..|s| - 1][k];
    }
  }

  lemma TrimSlice(s: string)
    ensures var a := |s| - |TrimStart(s)|; var b := a + |Trim(s)|;
      && a <= b <= |s| && Trim(s) == s[a..b]
      && Blank(s, 0, a) && Blank(s, b, |s|)
      && (a < b ==> !IsWhitespace(s[a]) && !IsWhitespace(s[b - 1]))
  {
    hide TrimStart, TrimEnd, IsWhitespace;
    TrimStartSuffix(s);
    TrimEndPrefix(TrimStart(s));
    SliceOfSuffix(s, TrimStart(s), Trim(s));
  }

  lemma SliceOfSuffix(s: string, t: string, r: string)
    requires |t| <= |s| && t == s[|s| - |t|..] && r <= t
    requires forall k | |r| <= k < |t| :: IsWhitespace(t[k])
    ensures var a := |s| - |t|; var b := a + |r|;
      r == s[a..b] && (forall k | b <= k < |s| :: IsWhitespace(s[k]))
        && (a < b ==> s[a] == t[0] && s[b - 1] == r[|r| - 1])
  {
    assert forall k | |s| - |t| <= k < |s| :: s[k] == t[k - (|s| - |t|)];
  }

  lemma BlankInside(text: string, o: nat, stop: nat, from: nat, to: nat)
    requires o <= stop <= |text| && from <= to <= stop - o && Blank(text[o..stop], from, to)
    ensures Blank(text, o + from, o + to)
  {
    forall k | o + from <= k < o + to ensures IsWhitespace(text[k]) {
      assert text[o..stop][k - o] == text[k];
    }
  }

  /** The trimmed line is the slice between its first and last character that is not whitespace. */
  lemma Ink(text: string, o: nat, stop: nat)
    requires o <= stop <= |text|
    ensures var a, b := InkStart(text, o, stop), InkEnd(text, o, stop);
      && o <= a <= b <= stop && Trim(text[o..stop]) == text[a..b]
      && Blank(text, o, a) && Blank(text, b, stop)
      && (a < b ==> !IsWhitespace(text[a]) && !IsWhitespace(text[b - 1]))
  {
    hide Trim, TrimStart, Blank, IsWhitespace;
    var line := text[o..stop];
    assert forall i | 0 <= i < |line| :: line[i] == text[o + i];
    TrimSlice(line);
    var a, b := |line| - |TrimStart(line)|, |line| - |TrimStart(line)| + |Trim(line)|;
    BlankInside(text, o, stop, 0, a);
    BlankInside(text, o, stop, b, |line|);
    assert line[a..b] == text[o + a..o + b];
  }

  // ----- what a division into statements has to be

  /** The line at `o` opens a statement: it is not blank, and it is a statement start or the first
      line that is not blank. */
  predicate Opens(text: string, o: nat, starts: string -> bool)
    requires o <= |text|
  {
    var trimmed := Trim(text[o..LineStop(text, o)]);
    trimmed != [] && (starts(trimmed) || Blank(text, 0, o))
  }

  /** Where the lines before `upTo` open statements. */
  function Openings(text: string, upTo: nat, starts: string -> bool): set<nat>
    requires upTo <= |text|
  {
    set o: nat | 0 <= o < upTo && IsLineStart(text, o) && Opens(text, o, starts) :: InkStart(text, o, LineStop(text, o))
  }

  function StartSet(statements: seq<Statement>): set<nat> {
    if statements == [] then {}
    else StartSet(statements[..|statements| - 1]) + {statements[|statements| - 1].start}
  }

  predicate Covers(statements: seq<Statement>, k: nat) {
    exists i: nat | i < |statements| :: statements[i].start <= k < statements[i].end
  }

  predicate ValidSpan(text: string, s: Statement) {
    && s.start < s.end <= |text| && s.text == text[s.start..s.end]
    && !IsWhitespace(text[s.start]) && !IsWhitespace(text[s.end - 1])
  }

  /** Spans are in order and disjoint, and none is empty. */
  predicate InOrder(statements: seq<Statement>) {
    && (forall i | 0 <= i < |statements| :: statements[i].start < statements[i].end)
    && (forall i, j | 0 <= i < j < |statements| :: statements[i].end <= statements[j].start)
  }

  /** Each span is its slice of the source without blank edges, all within the first `upTo`
      characters. */
  predicate Spans(text: string, upTo: nat, statements: seq<Statement>) {
    forall i {:trigger ValidSpan(text, statements[i])} | 0 <= i < |statements| ::
      ValidSpan(text, statements[i]) && statements[i].end <= upTo
  }

  /** Everything outside the spans is whitespace. */
  predicate CoversInk(text: string, upTo: nat, statements: seq<Statement>)
    requires upTo <= |text|
  {
    forall k: nat {:trigger Covers(statements, k)} | k < upTo && !IsWhitespace(text[k]) :: Covers(statements, k)
  }

  /** The first `upTo` characters are divided: spans are in order, all that is not whitespace lies in
      one, and they start exactly at the positions in `begun`. */
  predicate Divides(text: string, upTo: nat, statements: seq<Statement>, begun: set<nat>)
    requires upTo <= |text|
  {
    && InOrder(statements) && Spans(text, upTo, statements)
    && CoversInk(text, upTo, statements) && StartSet(statements) == begun
  }

  // ----- one line more

  lemma SkipLine(text: string, o: nat, stop: nat, statements: seq<Statement>, begun: set<nat>)
    requires o <= stop <= |text| && Divides(text, o, statements, begun) && Blank(text, o, stop)
    ensures Divides(text, stop, statements, begun)
  {
    forall i | 0 <= i < |statements| ensures ValidSpan(text, statements[i]) && statements[i].end <= stop {
      assert ValidSpan(text, statements[i]);
    }
  }

  lemma StartSetSnoc(statements: seq<Statement>, s: Statement)
    ensures StartSet(statements + [s]) == StartSet(statements) + {s.start}
  {
    assert (statements + [s])[..|statements|] == statements;
  }

  lemma CoversSnoc(text: string, o: nat, stop: nat, statements: seq<Statement>, s: Statement)
    requires o <= s.start <= s.end <= stop <= |text| && CoversInk(text, o, statements)
    requires Blank(text, o, s.start) && Blank(text, s.end, stop)
    ensures CoversInk(text, stop, statements + [s])
  {
    var all := statements + [s];
    forall k: nat | k < stop && !IsWhitespace(text[k]) ensures Covers(all, k) {
      if k < o {
        assert Covers(statements, k);
        var i: nat :| i < |statements| && statements[i].start <= k < statements[i].end;
        assert all[i] == statements[i];
      } else {
        assert all[|statements|] == s;
      }
    }
  }

  lemma SpansSnoc(text: string, o: nat, stop: nat, statements: seq<Statement>, s: Statement)
    requires o <= s.start && s.end <= stop && ValidSpan(text, s)
    requires InOrder(statements) && Spans(text, o, statements)
    ensures InOrder(statements + [s]) && Spans(text, stop, statements + [s])
  {
    var all := statements + [s];
    forall i | 0 <= i < |all|
      ensures ValidSpan(text, all[i]) && all[i].end <= stop && (i < |statements| ==> all[i].end <= s.start)
    {
      assert i < |statements| ==> ValidSpan(text, statements[i]);
    }
  }

  lemma OpenSpan(text: string, o: nat, stop: nat, statements: seq<Statement>, begun: set<nat>, s: Statement)
    requires o <= s.start <= s.end <= stop <= |text| && Divides(text, o, statements, begun) && ValidSpan(text, s)
    requires Blank(text, o, s.start) && Blank(text, s.end, stop)
    ensures Divides(text, stop, statements + [s], begun + {s.start})
  {
    StartSetSnoc(statements, s);
    CoversSnoc(text, o, stop, statements, s);
    SpansSnoc(text, o, stop, statements, s);
  }

  /** The last span stretched to end at `end`. */
  function Stretched(text: string, statements: seq<Statement>, end: nat): seq<Statement>
    requires statements != [] && statements[|statements| - 1].start <= end <= |text|
  {
    var start := statements[|statements| - 1].start;
    statements[|statements| - 1 := Statement(text[start..end], start, end)]
  }

  lemma StretchSpan(text: string, o: nat, stop: nat, statements: seq<Statement>, begun: set<nat>, end: nat)
    requires o < end <= stop <= |text| && Divides(text, o, statements, begun) && statements != []
    requires !IsWhitespace(text[end - 1]) && Blank(text, end, stop)
    ensures statements[|statements| - 1].start < end
    ensures Divides(text, stop, Stretched(text, statements, end), begun)
  {
    assert ValidSpan(text, statements[|statements| - 1]);
    StretchedSpans(text, o, stop, statements, end);
    StretchedCovers(text, o, stop, statements, end);
    StretchedStarts(text, statements, end);
  }

  lemma StretchedSpans(text: string, o: nat, stop: nat, statements: seq<Statement>, end: nat)
    requires o < end <= stop && end <= |text| && statements != []
    requires InOrder(statements) && Spans(text, o, statements)
    requires statements[|statements| - 1].start < end && !IsWhitespace(text[end - 1])
    ensures InOrder(Stretched(text, statements, end)) && Spans(text, stop, Stretched(text, statements, end))
  {
    var all := Stretched(text, statements, end);
    forall i | 0 <= i < |all| ensures ValidSpan(text, all[i]) && all[i].end <= stop {
      assert ValidSpan(text, statements[i]);
    }
  }

  lemma StretchedCovers(text: string, o: nat, stop: nat, statements: seq<Statement>, end: nat)
    requires o < end <= stop <= |text| && CoversInk(text, o, statements) && statements != [] && InOrder(statements)
    requires statements[|statements| - 1].start <= o && Blank(text, end, stop)
    ensures CoversInk(text, stop, Stretched(text, statements, end))
  {
    var all, last := Stretched(text, statements, end), |statements| - 1;
    forall k: nat | k < stop && !IsWhitespace(text[k]) ensures Covers(all, k) {
      if k < statements[last].start {
        assert Covers(statements, k);
        var i: nat :| i < |statements| && statements[i].start <= k < statements[i].end;
        assert all[i] == statements[i];
      } else {
        assert all[last].start <= k < all[last].end;
      }
    }
  }

  lemma StretchedStarts(text: string, statements: seq<Statement>, end: nat)
    requires statements != [] && statements[|statements| - 1].start <= end <= |text|
    ensures StartSet(Stretched(text, statements, end)) == StartSet(statements)
  {
    var last := |statements| - 1;
    assert Stretched(text, statements, end)[..last] == statements[..last];
  }

  /** Between two consecutive line starts there is no other. */
  lemma {:induction false} NoLineStartInside(text: string, o: nat, k: nat)
    requires o <= |text| && o < k < LineStop(text, o)
    ensures !IsLineStart(text, k)
    decreases |text| - o
  {
    if k > o + 1 {
      NoLineStartInside(text, o + 1, k);
    }
  }

  lemma OpeningsStep(text: string, o: nat, starts: string -> bool)
    requires IsLineStart(text, o)
    ensures Openings(text, LineStop(text, o), starts)
         == Openings(text, o, starts) + if Opens(text, o, starts) then {InkStart(text, o, LineStop(text, o))} else {}
  {
    forall k | o < k < LineStop(text, o) ensures !IsLineStart(text, k) {
      NoLineStartInside(text, o, k);
    }
  }

  /** Text without a span so far is blank, and text with one is not. */
  lemma BlankSoFar(text: string, o: nat, statements: seq<Statement>, begun: set<nat>)
    requires o <= |text| && Divides(text, o, statements, begun)
    ensures Blank(text, 0, o) <==> statements == []
  {
    if statements != [] {
      assert ValidSpan(text, statements[0]);
    } else {
      forall k: nat | k < o ensures IsWhitespace(text[k]) {
        assert !Covers(statements, k);
      }
    }
  }

  lemma TrimEndNothing(s: string)
    requires s != [] && !IsWhitespace(s[|s| - 1])
    ensures TrimEnd(s) == s
  {
  }

  /** A line that continues the last statement. */
  method ContinueLast(text: string, o: nat, stop: nat, statements: seq<Statement>, end: nat, ghost begun: set<nat>)
    returns (out: seq<Statement>)
    requires o < end <= stop <= |text| && Divides(text, o, statements, begun) && statements != []
    requires !IsWhitespace(text[end - 1]) && Blank(text, end, stop)
    ensures Divides(text, stop, out, begun)
  {
    var current := statements[|statements| - 1];
    StretchSpan(text, o, stop, statements, begun, end);
    TrimEndNothing(text[current.start..end]);
    out := statements[|statements| - 1 := Statement(TrimEnd(text[current.start..end]), current.start, end)];
  }

  /** What one line does to the division so far. */
  method AddLine(text: string, offset: nat, statements: seq<Statement>, starts: string -> bool, ghost begun: set<nat>)
    returns (out: seq<Statement>)
    requires IsLineStart(text, offset) && Divides(text, offset, statements, begun)
    ensures var stop := LineStop(text, offset);
      Divides(text, stop, out, begun + if Opens(text, offset, starts) then {InkStart(text, offset, stop)} else {})
  {
    hide Divides, TrimStart, Trim, LineStop;
    var stop := LineStop(text, offset);
    var line := text[offset..stop];
    var trimmed := Trim(line);
    var lineStart := offset + (|line| - |TrimStart(line)|);
    Ink(text, offset, stop);
    BlankSoFar(text, offset, statements, begun);
    assert begun + {} == begun;
    if trimmed == [] {
      SkipLine(text, offset, stop, statements, begun);
      out := statements;
    } else if !starts(trimmed) && statements != [] {
      out := ContinueLast(text, offset, stop, statements, lineStart + |trimmed|, begun);
    } else {
      var s := Statement(trimmed, lineStart, lineStart + |trimmed|);
      OpenSpan(text, offset, stop, statements, begun, s);
      out := statements + [s];
    }
  }

  /** One pass over the lines: a line that opens a statement starts a new one, any other line that
      is not blank stretches the last one. */
  method SplitStatements(text: string, starts: string -> bool) returns (statements: seq<Statement>)
    ensures Divides(text, |text|, statements, Openings(text, |text|, starts))
  {
    statements := [];
    var offset := 0;
    while offset < |text|
      invariant 0 <= offset <= |text| && (offset < |text| ==> IsLineStart(text, offset))
      invariant Divides(text, offset, statements, Openings(text, offset, starts))
    {
      statements := AddLine(text, offset, statements, starts, Openings(text, offset, starts));
      OpeningsStep(text, offset, starts);
      offset := LineStop(text, offset);
    }
  }

  // ----- there is only one such division

  /** Starts grow along a list of spans. */
  lemma StartsGrow(a: seq<Statement>, i: nat, j: nat)
    requires InOrder(a) && i < |a| && j < |a|
    ensures a[i].start < a[j].start <==> i < j
    ensures i < j ==> a[i].end <= a[j].start
  {
    assert a[i].start < a[i].end && a[j].start < a[j].end;
  }

  lemma Earlier(a: seq<Statement>, n: nat)
    requires InOrder(a) && n < |a|
    ensures forall k | 0 <= k < n :: a[k].start < a[n].start
  {
    forall k | 0 <= k < n ensures a[k].start < a[n].start {
      StartsGrow(a, k, n);
    }
  }

  predicate SameStarts(a: seq<Statement>, b: seq<Statement>, n: nat) {
    n <= |a| && n <= |b| && forall k | 0 <= k < n :: a[k].start == b[k].start
  }

  lemma {:induction false} SpanStartingAt(statements: seq<Statement>, start: nat) returns (j: nat)
    requires start in StartSet(statements)
    ensures j < |statements| && statements[j].start == start
  {
    j := |statements| - 1;
    if statements[j].start != start {
      j := SpanStartingAt(statements[..j], start);
    }
  }

  lemma {:induction false} StartIsListed(statements: seq<Statement>, i: nat)
    requires i < |statements|
    ensures statements[i].start in StartSet(statements)
  {
    if i < |statements| - 1 {
      StartIsListed(statements[..|statements| - 1], i);
    }
  }

  /** Divisions that agree on the first `n` spans agree on where the next one starts. */
  lemma NextStart(a: seq<Statement>, b: seq<Statement>, n: nat)
    requires InOrder(a) && InOrder(b) && StartSet(a) == StartSet(b)
    requires n < |a| && SameStarts(a, b, n)
    ensures n < |b| && b[n].start <= a[n].start
  {
    StartIsListed(a, n);
    var j := SpanStartingAt(b, a[n].start);
    Earlier(a, n);
    StartsGrow(b, n, j);
  }

  lemma {:induction false} StartsAgree(a: seq<Statement>, b: seq<Statement>, n: nat)
    requires InOrder(a) && InOrder(b) && StartSet(a) == StartSet(b) && n <= |a|
    ensures SameStarts(a, b, n)
  {
    if n > 0 {
      StartsAgree(a, b, n - 1);
      NextStart(a, b, n - 1);
      assert SameStarts(b, a, n - 1);
      NextStart(b, a, n - 1);
    }
  }

  /** A span cannot reach further than the other's: its last character would be left over. */
  lemma EndsAgree(text: string, a: seq<Statement>, b: seq<Statement>, i: nat)
    requires InOrder(a) && Spans(text, |text|, a) && InOrder(b) && CoversInk(text, |text|, b)
    requires |a| == |b| && i < |a| && SameStarts(a, b, |a|)
    ensures a[i].end <= b[i].end
  {
    var k := a[i].end - 1;
    assert ValidSpan(text, a[i]) && Covers(b, k);
    var j: nat :| j < |b| && b[j].start <= k < b[j].end;
    StartsGrow(b, j, i);
    StartsGrow(a, i, j);
  }

  lemma SpanAgrees(text: string, a: seq<Statement>, b: seq<Statement>, begun: set<nat>, i: nat)
    requires Divides(text, |text|, a, begun) && Divides(text, |text|, b, begun)
    requires |a| == |b| && i < |a| && SameStarts(a, b, |a|)
    ensures a[i] == b[i]
  {
    EndsAgree(text, a, b, i);
    EndsAgree(text, b, a, i);
    assert ValidSpan(text, a[i]) && ValidSpan(text, b[i]);
  }

  /** The properties of a division determine it, so they say everything about the splitter's result. */
  lemma DivisionUnique(text: string, a: seq<Statement>, b: seq<Statement>, begun: set<nat>)
    requires Divides(text, |text|, a, begun) && Divides(text, |text|, b, begun)
    ensures a == b
  {
    StartsAgree(a, b, |a|);
    StartsAgree(b, a, |b|);
    forall i | 0 <= i < |a| ensures a[i] == b[i] {
      SpanAgrees(text, a, b, begun, i);
    }
  }

  // ----- the two connectors

  predicate StartsMongoStatement(line: string) {
    line == "db" || "db." <= line || "use " <= line || line == "show" || "show " <= line
  }

  function UpperAscii(s: string): string {
    if s == [] then ""
    else [if 'a' <= s[0] <= 'z' then s[0] - 'a' + 'A' else s[0]] + UpperAscii(s[1..])
  }

  function FirstWord(s: string): string {
    if s == [] || IsWhitespace(s[0]) then "" else [s[0]] + FirstWord(s[1..])
  }

  /** An HTTP verb followed by a path. */
  predicate StartsRequest(line: string) {
    var words := TrimStart(line);
    var verb := FirstWord(words);
    && (UpperAscii(verb) == "GET" || UpperAscii(verb) == "POST" || UpperAscii(verb) == "PUT"
        || UpperAscii(verb) == "DELETE" || UpperAscii(verb) == "HEAD" || UpperAscii(verb) == "PATCH")
    && |verb| <= |words| && !IsBlank(words[|verb|..])
  }

  method SplitMongo(text: string) returns (statements: seq<Statement>)
    ensures Divides(text, |text|, statements, Openings(text, |text|, StartsMongoStatement))
  {
    statements := SplitStatements(text, StartsMongoStatement);
  }

  method SplitElasticsearch(text: string) returns (statements: seq<Statement>)
    ensures Divides(text, |text|, statements, Openings(text, |text|, StartsRequest))
  {
    statements := SplitStatements(text, StartsRequest);
  }

  // ----- what the division means, line by line

  /** The line without its newline is `text[o..e]`. */
  predicate IsLine(text: string, o: nat, e: nat) {
    && o <= e <= |text| && (o == 0 || text[o - 1] == '\n') && (e == |text| || text[e] == '\n')
    && forall k | o <= k < e :: text[k] != '\n'
  }

  lemma {:induction false} LineStopIs(text: string, o: nat, e: nat)
    requires o <= e <= |text| && (e == |text| || text[e] == '\n') && forall k | o <= k < e :: text[k] != '\n'
    ensures LineStop(text, o) == if e < |text| then e + 1 else e
    decreases e - o
  {
    if o < e {
      LineStopIs(text, o + 1, e);
    }
  }

  lemma InkFound(text: string, o: nat, e: nat, k: nat)
    requires IsLine(text, o, e) && o <= k < e && Blank(text, o, k) && !IsWhitespace(text[k])
    ensures var stop := LineStop(text, o);
      InkStart(text, o, stop) == k && Trim(text[o..stop]) == Trim(text[o..e]) != []
  {
    hide Trim, TrimStart, LineStop, IsWhitespace;
    var stop := LineStop(text, o);
    LineStopIs(text, o, e);
    NewlineIsSpace();
    Ink(text, o, stop);
    Ink(text, o, e);
    SameInk(text, o, e, stop, k);
  }

  lemma NewlineIsSpace()
    ensures IsWhitespace('\n')
  {
  }

  lemma SameInk(text: string, o: nat, e: nat, stop: nat, k: nat)
    requires o <= k < e <= stop <= |text| && Blank(text, o, k) && !IsWhitespace(text[k])
    requires stop == e || (stop == e + 1 && IsWhitespace(text[e]))
    requires var a, b := InkStart(text, o, stop), InkEnd(text, o, stop);
      && o <= a <= b <= stop && Trim(text[o..stop]) == text[a..b] && Blank(text, o, a) && Blank(text, b, stop)
      && (a < b ==> !IsWhitespace(text[a]) && !IsWhitespace(text[b - 1]))
    requires var a, b := InkStart(text, o, e), InkEnd(text, o, e);
      && o <= a <= b <= e && Trim(text[o..e]) == text[a..b] && Blank(text, o, a) && Blank(text, b, e)
      && (a < b ==> !IsWhitespace(text[a]) && !IsWhitespace(text[b - 1]))
    ensures InkStart(text, o, stop) == k && Trim(text[o..stop]) == Trim(text[o..e]) != []
  {
    hide Trim, TrimStart, IsWhitespace, InkStart, InkEnd;
    var a, b := InkStart(text, o, stop), InkEnd(text, o, stop);
    var c, d := InkStart(text, o, e), InkEnd(text, o, e);
    assert a == k && c == k && b == d;
  }

  lemma OpenedIff(text: string, o: nat, e: nat, k: nat, starts: string -> bool)
    requires IsLine(text, o, e) && o <= k < e && Blank(text, o, k) && !IsWhitespace(text[k])
    ensures k in Openings(text, |text|, starts) <==> starts(Trim(text[o..e])) || Blank(text, 0, o)
  {
    hide Trim, TrimStart, LineStop, IsWhitespace, InkStart;
    InkFound(text, o, e, k);
    forall p: nat
      | p < |text| && IsLineStart(text, p) && Opens(text, p, starts) && InkStart(text, p, LineStop(text, p)) == k
      ensures p == o
    {
      OneLineOf(text, o, e, k, p);
    }
  }

  lemma OneLineOf(text: string, o: nat, e: nat, k: nat, p: nat)
    requires IsLine(text, o, e) && o <= k < e && p < |text| && IsLineStart(text, p)
    requires Trim(text[p..LineStop(text, p)]) != [] && InkStart(text, p, LineStop(text, p)) == k
    ensures p == o
  {
    hide Trim, TrimStart;
    var stop := LineStop(text, p);
    Ink(text, p, stop);
    if p < o {
      NoNewlineInside(text, p, o - 1);
    }
  }

  lemma {:induction false} NoNewlineInside(text: string, p: nat, i: nat)
    requires p <= i < |text| && text[i] == '\n'
    ensures LineStop(text, p) <= i + 1
    decreases i - p
  {
    if p < i && text[p] != '\n' {
      NoNewlineInside(text, p + 1, i);
    }
  }

  /** Where a line begins its text, a statement starts exactly when the line is a statement start or the
      first one that is not blank; and statements start nowhere else. */
  lemma StatementStarts(text: string, statements: seq<Statement>, starts: string -> bool, o: nat, e: nat, k: nat)
    requires Divides(text, |text|, statements, Openings(text, |text|, starts))
    requires IsLine(text, o, e) && o <= k < e
    ensures (exists i | 0 <= i < |statements| :: statements[i].start == k) <==>
      && (forall j | o <= j < k :: IsWhitespace(text[j])) && !IsWhitespace(text[k])
      && (starts(Trim(text[o..e])) || forall j | 0 <= j < o :: IsWhitespace(text[j]))
  {
    hide Trim, TrimStart, LineStop, IsWhitespace, InkStart, Openings;
    var begun := Openings(text, |text|, starts);
    if Blank(text, o, k) && !IsWhitespace(text[k]) {
      OpenedIff(text, o, e, k, starts);
    } else {
      NotOpened(text, o, e, k, starts);
    }
    if k in begun {
      var i := SpanStartingAt(statements, k);
    }
    forall i: nat | i < |statements| && statements[i].start == k ensures k in begun {
      StartIsListed(statements, i);
    }
  }

  lemma NotOpened(text: string, o: nat, e: nat, k: nat, starts: string -> bool)
    requires IsLine(text, o, e) && o <= k < e && !(Blank(text, o, k) && !IsWhitespace(text[k]))
    ensures k !in Openings(text, |text|, starts)
  {
    hide Trim, TrimStart, LineStop, IsWhitespace, InkStart;
    forall p: nat | p < |text| && IsLineStart(text, p) && Opens(text, p, starts)
      ensures InkStart(text, p, LineStop(text, p)) != k
    {
      if InkStart(text, p, LineStop(text, p)) == k {
        OneLineOf(text, o, e, k, p);
        Ink(text, p, LineStop(text, p));
      }
    }
  }

  // ----- which lines open a statement, spelled out

  /** In the MongoDB console: the bare words `db` and `show`, and what begins with `db.`, `use ` or
      `show `. */
  lemma MongoStarts(line: string, rest: string)
    ensures StartsMongoStatement("db") && StartsMongoStatement("show")
    ensures StartsMongoStatement("db." + rest) && StartsMongoStatement("use " + rest)
    ensures StartsMongoStatement("show " + rest)
    ensures line != "db" && line != "show" && line[..if |line| < 3 then |line| else 3] != "db."
         && line[..if |line| < 4 then |line| else 4] != "use " && line[..if |line| < 5 then |line| else 5] != "show "
      ==> !StartsMongoStatement(line)
  {
  }

  /** The same letters, but for the case of those in `s`. */
  predicate AnyCase(s: string, upper: string) {
    && |s| == |upper|
    && forall i | 0 <= i < |s| :: s[i] == upper[i] || ('a' <= s[i] <= 'z' && s[i] - 'a' + 'A' == upper[i])
  }

  predicate IsVerb(s: string) {
    || AnyCase(s, "GET") || AnyCase(s, "POST") || AnyCase(s, "PUT") || AnyCase(s, "DELETE") || AnyCase(s, "HEAD")
    || AnyCase(s, "PATCH")
  }

  predicate InCapitals(s: string) {
    forall i | 0 <= i < |s| :: 'A' <= s[i] <= 'Z'
  }

  lemma {:induction false} UpperIs(s: string, upper: string)
    requires InCapitals(upper)
    ensures UpperAscii(s) == upper <==> AnyCase(s, upper)
  {
    if s == "" || upper == "" {
      UpperNotEmpty(s);
    } else {
      hide AnyCase, UpperAscii;
      UpperIs(s[1..], upper[1..]);
      UpperFirst(s);
      assert upper == [upper[0]] + upper[1..];
      assert UpperAscii(s)[1..] == UpperAscii(s[1..]);
      AnyCaseFirst(s, upper);
    }
  }

  lemma UpperFirst(s: string)
    requires s != ""
    ensures UpperAscii(s) == [if 'a' <= s[0] <= 'z' then s[0] - 'a' + 'A' else s[0]] + UpperAscii(s[1..])
  {
  }

  lemma UpperNotEmpty(s: string)
    ensures UpperAscii(s) == "" <==> s == ""
  {
  }

  lemma AnyCaseFirst(s: string, upper: string)
    requires s != "" && upper != "" && InCapitals(upper)
    ensures AnyCase(s, upper) <==>
      AnyCase(s[1..], upper[1..])
      && (if 'a' <= s[0] <= 'z' then s[0] - 'a' + 'A' else s[0]) == upper[0]
  {
    var t, v := s[1..], upper[1..];
    assert forall i | 0 < i < |s| :: s[i] == t[i - 1];
    assert forall i | 0 < i < |upper| :: upper[i] == v[i - 1];
    if AnyCase(t, v) {
      forall i | 0 < i < |s|
        ensures s[i] == upper[i] || ('a' <= s[i] <= 'z' && s[i] - 'a' + 'A' == upper[i])
      {
        assert t[i - 1] == v[i - 1] || ('a' <= t[i - 1] <= 'z' && t[i - 1] - 'a' + 'A' == v[i - 1]);
      }
    }
  }

  lemma {:induction false} FirstWordIs(verb: string, rest: string)
    requires forall i | 0 <= i < |verb| :: !IsWhitespace(verb[i])
    requires rest != "" ==> IsWhitespace(rest[0])
    ensures FirstWord(verb + rest) == verb
  {
    if verb == "" {
      assert verb + rest == rest;
    } else {
      FirstWordIs(verb[1..], rest);
      assert (verb + rest)[1..] == verb[1..] + rest;
      assert verb == [verb[0]] + verb[1..];
    }
  }

  /** In the Elasticsearch console: a verb in any case, whitespace, and something more. `rest` is the line
      from the end of its first word on. */
  lemma RequestStarts(before: string, verb: string, rest: string)
    requires IsBlank(before) && verb != "" && forall i | 0 <= i < |verb| :: !IsWhitespace(verb[i])
    requires rest != "" ==> IsWhitespace(rest[0])
    ensures StartsRequest(before + (verb + rest)) <==> IsVerb(verb) && !IsBlank(rest)
  {
    hide IsBlank, TrimStart, FirstWord, UpperAscii, AnyCase;
    TrimStartPadded(before, verb + rest);
    FirstWordIs(verb, rest);
    assert (verb + rest)[|verb|..] == rest;
    UpperIs(verb, "GET");
    UpperIs(verb, "POST");
    UpperIs(verb, "PUT");
    UpperIs(verb, "DELETE");
    UpperIs(verb, "HEAD");
    UpperIs(verb, "PATCH");
  }

  /** A blank line opens nothing. */
  lemma BlankStartsNothing(line: string)
    requires IsBlank(line)
    ensures !StartsRequest(line)
  {
    BlankTrimmed(line);
  }

  lemma {:induction false} BlankTrimmed(line: string)
    requires IsBlank(line)
    ensures TrimStart(line) == ""
  {
    if line != "" {
      assert line[0] in line;
      BlankTrimmed(line[1..]);
    }
  }
}
