/** Values that begin and end like a constructor call, which a row edit writes into its command
    unread: what happens when they are more than one call. */
module RowEditLookalikes {
  import opened Text
  import opened JsonSyntax
  import opened ShellQuery
  import opened ShellRoundTrip
  import opened RelaxJson
  import opened RelaxMeaning
  import opened RowEdit
  import opened RowEditReading
  import opened RowEditLoop

  // ----- one cell that sets two columns

  predicate LooksCalled(s: string) {
    LooksLikeCall(OBJECT_ID, s) || LooksLikeCall(ISO_DATE, s)
  }

  lemma LiteralAsTyped(parse: string -> Option<Json>, v: string)
    requires LooksCalled(v) && Trimmed(v)
    ensures ValueLiteral(parse, v) == v && Trim(v) == v
  {
    hide Trim, LooksLikeCall;
    TrimmedStays(v);
  }

  lemma JoinedCalls(a: string, middle: string, b: string)
    requires LooksCalled(a) && LooksCalled(b)
    ensures LooksCalled(a + middle + b) && Trimmed(a + middle + b)
  {
    var s := a + middle + b;
    assert s[|s| - 2..] == b[|b| - 2..];
    assert OBJECT_ID <= a ==> OBJECT_ID <= s;
    assert ISO_DATE <= a ==> ISO_DATE <= s;
    assert OBJECT_ID <= s ==> s[0] == 'O' && s[|OBJECT_ID| - 1] == '"';
    assert ISO_DATE <= s ==> s[0] == 'I' && s[|ISO_DATE| - 1] == '"';
    assert s[|s| - 1] == ')';
  }

  lemma JoinSpaced(a: string, b: string)
    ensures Join([a, b], ", ") == a + ", " + b && Join([a], ", ") == a
  {
    assert [a, b][1..] == [b];
  }

  lemma PairTextsOfTwo(parse: string -> Option<Json>, a: Pair, b: Pair)
    ensures PairsLiteral(parse, [a]) == "{" + PairText(parse, a) + "}"
    ensures PairsLiteral(parse, [a, b]) == "{" + (PairText(parse, a) + ", " + PairText(parse, b)) + "}"
  {
    hide PairText;
    assert [a][1..] == [] && [a, b][1..] == [b];
    assert PairTexts(parse, [a]) == [PairText(parse, a)];
    assert PairTexts(parse, [b]) == [PairText(parse, b)];
    assert PairTexts(parse, [a, b]) == [PairText(parse, a), PairText(parse, b)];
    JoinSpaced(PairText(parse, a), PairText(parse, b));
  }

  /** A call, a comma, a key and another call. */
  function TwoInOne(v: string, other: string, w: string): string {
    v + (", " + FieldKey(other) + ": ") + w
  }

  lemma TwoTexts(key: string, v: string, other: string, w: string)
    ensures "{" + (key + ": " + (v + (", " + other + ": ") + w)) + "}"
      == "{" + ((key + ": " + v) + ", " + (other + ": " + w)) + "}"
  {
  }

  lemma CellText(parse: string -> Option<Json>, column: string, v: string, other: string, w: string)
    requires LooksCalled(v) && Trimmed(v) && LooksCalled(w) && Trimmed(w)
    ensures PairsLiteral(parse, [Pair(column, TwoInOne(v, other, w))])
      == PairsLiteral(parse, [Pair(column, v), Pair(other, w)])
  {
    hide FieldKey, LooksCalled, ValueLiteral, Trimmed, Trim, PairsLiteral;
    var cell := TwoInOne(v, other, w);
    JoinedCalls(v, ", " + FieldKey(other) + ": ", w);
    LiteralAsTyped(parse, v);
    LiteralAsTyped(parse, w);
    LiteralAsTyped(parse, cell);
    PairTextsOfTwo(parse, Pair(column, cell), Pair(column, cell));
    PairTextsOfTwo(parse, Pair(column, v), Pair(other, w));
    TwoTexts(FieldKey(column), v, FieldKey(other), w);
  }

  /** A cell whose text is a call, a comma, a key and another call makes the command that sets both
      columns. */
  lemma CellSetsTwo(parse: string -> Option<Json>, table: string, key: seq<Pair>, column: string, v: string,
                    other: string, w: string)
    requires LooksCalled(v) && Trimmed(v) && LooksCalled(w) && Trimmed(w)
    ensures var one := Edit(table, key, SetValue(Pair(column, TwoInOne(v, other, w))));
      var two := Edit(table, key, SetValues([Pair(column, v), Pair(other, w)]));
      EditCommand(parse, one) == EditCommand(parse, two) && EditArgs(parse, one) == EditArgs(parse, two)
  {
    hide LooksCalled, Trimmed, PairsLiteral, TwoInOne;
    CellText(parse, column, v, other, w);
  }

  lemma CallHasParen(prefix: string, v: string, rest: string)
    requires prefix == OBJECT_ID || prefix == ISO_DATE
    requires LooksLikeCall(prefix, v) && LooksLikeCall(prefix, v + rest) && |rest| > 2
    ensures !WholeCall(prefix, v + rest)
  {
    var s := v + rest;
    assert s[|v| - 1] == ')';
    if |prefix| + 2 <= |s| {
      assert prefix[|prefix| - 1] == '"' && |v| > |prefix|;
      assert CallBody(prefix, s)[|v| - 1 - |prefix|] == s[|v| - 1];
    }
  }

  /** Such a cell is not one call. */
  lemma CellIsNotWhole(v: string, other: string, w: string)
    requires LooksCalled(v) && Trimmed(v) && LooksCalled(w)
    ensures !WholeValue(TwoInOne(v, other, w))
  {
    hide FieldKey, Trim, CallBody, WholeCall;
    var middle := ", " + FieldKey(other) + ": ";
    var cell := TwoInOne(v, other, w);
    JoinedCalls(v, middle, w);
    TrimmedStays(cell);
    assert cell == v + (middle + w);
    if LooksLikeCall(OBJECT_ID, v) {
      assert OBJECT_ID <= cell;
      CallHasParen(OBJECT_ID, v, middle + w);
    } else {
      assert ISO_DATE <= cell;
      CallHasParen(ISO_DATE, v, middle + w);
    }
  }

  /** So the edit of one cell is read as an edit of two, and not as the one that was asked for. */
  lemma CellIsReadAsTwo(u: Unicode, parse: string -> Option<Json>, table: string, key: seq<Pair>, column: string,
                        v: string, other: string, w: string)
    requires Coherent(u) && ReadsJson(u, parse) && GoodPairs(key) && GoodPairs([Pair(column, v), Pair(other, w)])
    requires LooksCalled(v) && Trimmed(v) && LooksCalled(w) && Trimmed(w)
    requires FoundAsWritten(parse, Edit(table, key, SetValue(Pair(column, TwoInOne(v, other, w)))))
    ensures var one := Edit(table, key, SetValue(Pair(column, TwoInOne(v, other, w))));
      var two := Edit(table, key, SetValues([Pair(column, v), Pair(other, w)]));
      && ParseQuery(Reader(u, Verbatim), EditCommand(parse, one)) == Ok(StrictQuery(parse, two))
      && ParseQuery(Reader(u, Verbatim), EditCommand(parse, one)) != Ok(StrictQuery(parse, one))
  {
    hide ParseQuery, Reader, EditCommand, EditArgs, StrictQuery, Coherent, ReadsJson, GoodField, WholeValue, TwoInOne,
         LooksCalled, EditQuery;
    var cell := TwoInOne(v, other, w);
    var one := Edit(table, key, SetValue(Pair(column, cell)));
    var two := Edit(table, key, SetValues([Pair(column, v), Pair(other, w)]));
    CellSetsTwo(parse, table, key, column, v, other, w);
    CellIsNotWhole(v, other, w);
    FieldsAndValues(key);
    FieldsAndValues([Pair(column, v), Pair(other, w)]);
    assert GoodField([Pair(column, v), Pair(other, w)][0].column);
    EditRoundTripIff(u, parse, two);
    EditParsesBackIff(parse, one);
    assert !WholeValue([Pair(column, cell)][0].value);
    EditRoundTripIff(u, parse, one);
  }

  // ----- inputs

  function Date(body: string): string {
    "ISODate(\"" + body + "\")"
  }

  lemma DateLooks(body: string)
    ensures LooksLikeCall(ISO_DATE, Date(body)) && !LooksLikeCall(OBJECT_ID, Date(body)) && Trimmed(Date(body))
    ensures |ISO_DATE| + 2 <= |Date(body)| && CallBody(ISO_DATE, Date(body)) == body
  {
    var s := Date(body);
    assert s[|s| - 2..] == "\")" && s[8] == '"' && s[0] == 'I' && OBJECT_ID[0] == 'O' && s[|s| - 1] == ')';
  }

  lemma DateWhole(body: string)
    ensures WholeValue(Date(body)) <==> ')' !in body
  {
    hide Trim, LooksLikeCall, CallBody;
    DateLooks(body);
    TrimmedStays(Date(body));
  }

  function DateMember(before: string, column: string, body: string): Member {
    Member(before, Bare(column), "", " ", Ctor("ISODate", "", "", QuotedArg('"', body), ""), "")
  }

  lemma DateWf(u: Unicode, body: string)
    requires ')' !in body
    ensures var v := DateMember("", "", body).value; Wf(u, v) && Render(v) == Date(body)
  {
    CtorText(DateMember("", "", body).value);
    QuotedBody("ISODate", body);
    assert "ISODate" + "(\"" + body + "\")" == Date(body);
  }

  lemma DateMemberText(u: Unicode, before: string, column: string, body: string)
    requires Coherent(u) && IsBareKey(column) && IsSpace(before) && ')' !in body
    ensures WfMember(u, DateMember(before, column, body))
    ensures RenderMember(DateMember(before, column, body)) == before + (column + ": " + Date(body))
  {
    hide IsIdentifier, IsBareKey, Coherent, Wf, Render, Date;
    BareKeyIsIdentifier(u, column);
    DateWf(u, body);
    MemberText(before, column, Date(body));
  }

  lemma DateMemberStrict(before: string, column: string, body: string)
    ensures RenderMember(StrictMember(DateMember(before, column, body)))
      == before + ("\"" + column + "\": " + ("{\"$date\": " + LitText(StringLit(body)) + "}"))
  {
    hide CtorJson, StringLit, UnitsText;
    PlainUnitsText(column);
    ReplacementText("ISODate", body);
    var key, text := "\"" + column + "\"", "{\"$date\": " + LitText(StringLit(body)) + "}";
    assert LitText(PlainLit(column)) == key;
    assert "{\"" + "$date" + "\": " == "{\"$date\": ";
    MemberText(before, key, text);
    assert key + ": " + text == "\"" + column + "\": " + text;
  }

  /** An object with one date. */
  lemma OneDate(u: Unicode, column: string, body: string)
    requires Coherent(u) && IsBareKey(column) && ')' !in body
    ensures Relax(u, "{" + (column + ": " + Date(body)) + "}")
      == "{" + ("\"" + column + "\": " + ("{\"$date\": " + LitText(StringLit(body)) + "}")) + "}"
  {
    hide Relax, RenderMember, StrictMember, WfMember, Coherent, IsBareKey, Date, StringLit;
    var m := DateMember("", column, body);
    DateMemberText(u, "", column, body);
    DateMemberStrict("", column, body);
    OneMemberText(u, m);
    StrictObjectText(LastMember(m));
    RelaxWhole(u, Obj(LastMember(m)));
    Braces(column + ": " + Date(body));
    Braces("\"" + column + "\": " + ("{\"$date\": " + LitText(StringLit(body)) + "}"));
  }

  lemma Braces(text: string)
    ensures "{" + ("" + text + "}") == "{" + text + "}"
  {
  }

  /** An object with two dates. */
  lemma TwoDates(u: Unicode, a: string, first: string, b: string, second: string)
    requires Coherent(u) && IsBareKey(a) && IsBareKey(b) && ')' !in first && ')' !in second
    ensures Relax(u, "{" + ((a + ": " + Date(first)) + ", " + (b + ": " + Date(second))) + "}")
      == "{" + (("\"" + a + "\": " + ("{\"$date\": " + LitText(StringLit(first)) + "}"))
         + ", " + ("\"" + b + "\": " + ("{\"$date\": " + LitText(StringLit(second)) + "}"))) + "}"
  {
    hide Relax, RenderMember, StrictMember, WfMember, Coherent, IsBareKey, Date, StringLit, LitText;
    var m, n := DateMember("", a, first), DateMember(" ", b, second);
    DateMemberText(u, "", a, first);
    DateMemberText(u, " ", b, second);
    DateMemberStrict("", a, first);
    DateMemberStrict(" ", b, second);
    var members := MoreMembers(m, LastMember(n));
    TwoMembers(u, m, n);
    RelaxWhole(u, Obj(members));
    SpacedMembers(a + ": " + Date(first), b + ": " + Date(second));
    SpacedMembers("\"" + a + "\": " + ("{\"$date\": " + LitText(StringLit(first)) + "}"),
                  "\"" + b + "\": " + ("{\"$date\": " + LitText(StringLit(second)) + "}"));
  }

  lemma TwoMembers(u: Unicode, m: Member, n: Member)
    requires WfMember(u, m) && WfMember(u, n)
    ensures var v := Obj(MoreMembers(m, LastMember(n)));
      && Wf(u, v) && Render(v) == "{" + ((RenderMember(m) + ("," + RenderMember(n))) + "}")
      && Render(Strict(v)) == "{" + ((RenderMember(StrictMember(m)) + ("," + RenderMember(StrictMember(n)))) + "}")
  {
    hide RenderMember, StrictMember, WfMember;
    var rest := LastMember(n);
    assert WfMembers(u, rest) && RenderMembers(rest) == RenderMember(n);
    assert StrictMembers(rest) == LastMember(StrictMember(n));
    assert RenderMembers(LastMember(StrictMember(n))) == RenderMember(StrictMember(n));
  }

  lemma SpacedMembers(a: string, b: string)
    ensures "{" + (("" + a + ("," + (" " + b))) + "}") == "{" + (a + ", " + b) + "}"
  {
  }

  // ----- the strings in them

  lemma QuoteString()
    ensures UnitsText(StringLit("\"").units) == "\\\""
  {
    StringFirst("\"");
    assert "\""[1..] == "";
    StringNothing();
  }

  /** A string with one double quote in it. */
  lemma QuotedOnce(a: string, b: string)
    requires forall i | 0 <= i < |a| :: a[i] != '"' && a[i] != '\\' && a[i] >= ' '
    ensures UnitsText(StringLit(a + "\"" + b).units) == a + "\\\"" + UnitsText(StringLit(b).units)
  {
    hide StringLit, UnitsText;
    PlainString(a);
    QuoteString();
    StringConcat(a + "\"", b);
    StringConcat(a, "\"");
  }

  lemma LitAround(s: string)
    ensures LitText(StringLit(s)) == "\"" + UnitsText(StringLit(s).units) + "\""
  {
  }

  // ----- what they are read as

  lemma DateLiteral(parse: string -> Option<Json>, column: string, body: string)
    requires FieldKey(column) == column
    ensures PairText(parse, Pair(column, Date(body))) == column + ": " + Date(body)
  {
    hide FieldKey, ValueLiteral, Date;
    DateIsCalled(body);
    DateLooks(body);
    LiteralAsTyped(parse, Date(body));
  }

  lemma DateLiterals(parse: string -> Option<Json>, a: string, first: string, b: string, second: string)
    requires FieldKey(a) == a && FieldKey(b) == b
    ensures PairsLiteral(parse, [Pair(a, Date(first))]) == "{" + (a + ": " + Date(first)) + "}"
    ensures PairsLiteral(parse, [Pair(a, Date(first)), Pair(b, Date(second))])
      == "{" + ((a + ": " + Date(first)) + ", " + (b + ": " + Date(second))) + "}"
  {
    hide *;
    DateLiteral(parse, a, first);
    DateLiteral(parse, b, second);
    PairTextsOfTwo(parse, Pair(a, Date(first)), Pair(b, Date(second)));
  }

  lemma DatesInOne(parse: string -> Option<Json>, first: string, second: string)
    ensures var cell := TwoInOne(Date(first), "role", Date(second));
      && !WholeValue(cell)
      && PairsLiteral(parse, [Pair("name", cell)])
        == PairsLiteral(parse, [Pair("name", Date(first)), Pair("role", Date(second))])
  {
    hide *;
    DateIsCalled(first);
    DateIsCalled(second);
    DateLooks(first);
    DateLooks(second);
    CellIsNotWhole(Date(first), "role", Date(second));
    CellText(parse, "name", Date(first), "role", Date(second));
  }

  /** A closing parenthesis inside what a scanner takes for a string ends the call all the same: the text
      `ISODate("x" "), role: ISODate(" "y")` has brackets and strings that match, and sets two columns. */
  lemma HiddenParenthesis(u: Unicode, parse: string -> Option<Json>)
    requires Coherent(u)
    ensures var cell := "ISODate(\"x\" \"), role: ISODate(\" \"y\")";
      && !WholeValue(cell)
      && Relax(u, PairsLiteral(parse, [Pair("name", cell)]))
           == "{" + ("\"name\": {\"$date\": \"x\\\" \"}" + ", " + "\"role\": {\"$date\": \" \\\"y\"}") + "}"
  {
    hide *;
    DatesInOne(parse, "x\" ", " \"y");
    BareKeys();
    DateLiterals(parse, "name", "x\" ", "role", " \"y");
    TwoDates(u, "name", "x\" ", "role", " \"y");
    RoleStrings();
    RoleCell();
    NameText();
    RoleMemberText();
  }

  lemma NameText()
    ensures "\"" + "name" + "\": " + ("{\"$date\": " + "\"x\\\" \"" + "}") == "\"name\": {\"$date\": \"x\\\" \"}"
  {
  }

  lemma RoleMemberText()
    ensures "\"" + "role" + "\": " + ("{\"$date\": " + "\" \\\"y\"" + "}") == "\"role\": {\"$date\": \" \\\"y\"}"
  {
  }

  /** Editing `name` to `ISODate("a"), role: ISODate("b")` sets `name` and `role`. */
  lemma CellSetsRole(parse: string -> Option<Json>, table: string, key: seq<Pair>)
    ensures EditCommand(parse, Edit(table, key, SetValue(Pair("name", "ISODate(\"a\"), role: ISODate(\"b\")"))))
      == EditCommand(parse, Edit(table, key, SetValues([Pair("name", "ISODate(\"a\")"),
                                                         Pair("role", "ISODate(\"b\")")])))
  {
    hide *;
    DateIsCalled("a");
    DateIsCalled("b");
    DateLooks("a");
    DateLooks("b");
    CellSetsTwo(parse, table, key, "name", Date("a"), "role", Date("b"));
    PlainRole();
  }

  lemma PlainRole()
    ensures Date("a") == "ISODate(\"a\")" && Date("b") == "ISODate(\"b\")"
    ensures TwoInOne(Date("a"), "role", Date("b")) == "ISODate(\"a\"), role: ISODate(\"b\")"
  {
    hide FieldKey;
    BareKeys();
  }

  lemma DateIsCalled(body: string)
    ensures LooksCalled(Date(body))
  {
    DateLooks(body);
  }

  lemma BareKeys()
    ensures IsBareKey("name") && IsBareKey("role") && FieldKey("name") == "name" && FieldKey("role") == "role"
  {
  }

  lemma RoleStrings()
    ensures LitText(StringLit("x\" ")) == "\"x\\\" \"" && LitText(StringLit(" \"y")) == "\" \\\"y\""
  {
    hide StringLit, UnitsText, LitText;
    QuotedOnce("x", " ");
    PlainString(" ");
    LitAround("x\" ");
    assert "x" + "\"" + " " == "x\" ";
    QuotedOnce(" ", "y");
    PlainString("y");
    LitAround(" \"y");
    assert " " + "\"" + "y" == " \"y";
  }

  lemma RoleCell()
    ensures TwoInOne(Date("x\" "), "role", Date(" \"y")) == "ISODate(\"x\" \"), role: ISODate(\" \"y\")"
  {
    hide FieldKey;
    BareKeys();
  }

  /** A comma outside what a scanner takes for strings does not end the call: `ISODate("a", b: "c")` is
      one date. */
  lemma CommaInCall(u: Unicode, parse: string -> Option<Json>)
    requires Coherent(u)
    ensures var cell := "ISODate(\"a\", b: \"c\")";
      && WholeValue(cell)
      && Relax(u, PairsLiteral(parse, [Pair("name", cell)])) == "{\"name\": {\"$date\": \"a\\\", b: \\\"c\"}}"
  {
    hide *;
    var body := "a\", b: \"c";
    assert ')' !in body;
    DateWhole(body);
    CommaCell();
    BareKeys();
    DateLiterals(parse, "name", body, "name", body);
    OneDate(u, "name", body);
    CommaString();
    CommaText();
  }

  lemma CommaCell()
    ensures Date("a\", b: \"c") == "ISODate(\"a\", b: \"c\")"
  {
  }

  lemma CommaText()
    ensures "{" + ("\"" + "name" + "\": " + ("{\"$date\": " + "\"a\\\", b: \\\"c\"" + "}")) + "}"
      == "{\"name\": {\"$date\": \"a\\\", b: \\\"c\"}}"
  {
  }

  lemma CommaString()
    ensures LitText(StringLit("a\", b: \"c")) == "\"a\\\", b: \\\"c\""
  {
    hide StringLit, UnitsText, LitText;
    var body := "a\", b: \"c";
    QuotedOnce("a", ", b: \"c");
    QuotedOnce(", b: ", "c");
    PlainString("c");
    LitAround(body);
    assert "a" + "\"" + ", b: \"c" == body && ", b: " + "\"" + "c" == ", b: \"c";
  }
}
