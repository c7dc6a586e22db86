/** A row edited in the results grid, written as a MongoDB command and parsed again. */
module RowEdit {
  import opened Text
  import opened JsonSyntax
  import opened ShellTrees
  import opened RelaxMeaning
  import ShellRoundTrip
  import JsComments

  datatype Pair = Pair(column: string, value: string)

  datatype RowChange = SetValue(pair: Pair) | SetValues(pairs: seq<Pair>) | DeleteRow

  datatype Edit = Edit(table: string, key: seq<Pair>, change: RowChange)

  // ----- the command, as text

  predicate InBareKey(c: char) {
    IsLetter(c) || IsDigit(c) || c == '_' || c == '$'
  }

  predicate IsBareKey(field: string) {
    field != "" && !IsDigit(field[0]) && forall i | 0 <= i < |field| :: InBareKey(field[i])
  }

  function EscapeQuotes(s: string): string {
    if s == "" then "" else (if s[0] == '"' then "\\\"" else [s[0]]) + EscapeQuotes(s[1..])
  }

  function FieldKey(field: string): string {
    if IsBareKey(field) then field else "\"" + EscapeQuotes(field) + "\""
  }

  /** `prefix` starts with a constructor's name and opens its string. */
  predicate LooksLikeCall(prefix: string, s: string) {
    prefix <= s && |s| >= 2 && s[|s| - 2..] == "\")" && '"' in s
  }

  const OBJECT_ID := "ObjectId(\""
  const ISO_DATE := "ISODate(\""

  /** `parse` is the JSON reader: the tree of a JSON text. */
  function ValueLiteral(parse: string -> Option<Json>, value: string): string {
    var trimmed := Trim(value);
    if LooksLikeCall(OBJECT_ID, trimmed) || LooksLikeCall(ISO_DATE, trimmed) then trimmed
    else if parse(trimmed).Some? then trimmed
    else LitText(StringLit(value))
  }

  function PairText(parse: string -> Option<Json>, pair: Pair): string {
    FieldKey(pair.column) + ": " + ValueLiteral(parse, pair.value)
  }

  function PairTexts(parse: string -> Option<Json>, pairs: seq<Pair>): seq<string> {
    if pairs == [] then [] else [PairText(parse, pairs[0])] + PairTexts(parse, pairs[1..])
  }

  function PairsLiteral(parse: string -> Option<Json>, pairs: seq<Pair>): string {
    "{" + Join(PairTexts(parse, pairs), ", ") + "}"
  }

  function SetText(parse: string -> Option<Json>, pairs: seq<Pair>): string {
    "{$set: " + PairsLiteral(parse, pairs) + "}"
  }

  function UpdateText(parse: string -> Option<Json>, edit: Edit, pairs: seq<Pair>): string {
    "db." + edit.table + ".updateOne(" + PairsLiteral(parse, edit.key) + ", {$set: " + PairsLiteral(parse, pairs) + "})"
  }

  function EditCommand(parse: string -> Option<Json>, edit: Edit): string {
    match edit.change
    case SetValue(pair) => UpdateText(parse, edit, [pair])
    case SetValues(pairs) => UpdateText(parse, edit, pairs)
    case DeleteRow => "db." + edit.table + ".deleteOne(" + PairsLiteral(parse, edit.key) + ")"
  }

  // ----- the command, as trees

  function QuoteUnit(c: char): Unit {
    if c == '"' then Esc('"') else Chr(c)
  }

  function KeyTree(field: string): Key {
    if IsBareKey(field) then Bare(field)
    else Named(Lit('"', seq(|field|, i requires 0 <= i < |field| => QuoteUnit(field[i]))))
  }

  /** What stands between the quotes of the call that a value looks like; nothing when its two quotes
      are one and the same. */
  function CallBody(prefix: string, s: string): string {
    if |prefix| + 2 <= |s| then s[|prefix|..|s| - 2] else ""
  }

  function CallTree(name: string, prefix: string, s: string): Json {
    Ctor(name, "", "", QuotedArg('"', CallBody(prefix, s)), "")
  }

  function ValueTree(parse: string -> Option<Json>, value: string): Json {
    var trimmed := Trim(value);
    if LooksLikeCall(OBJECT_ID, trimmed) then CallTree("ObjectId", OBJECT_ID, trimmed)
    else if LooksLikeCall(ISO_DATE, trimmed) then CallTree("ISODate", ISO_DATE, trimmed)
    else if parse(trimmed).Some? then parse(trimmed).value
    else Str(StringLit(value))
  }

  function PairMember(parse: string -> Option<Json>, before: string, pair: Pair): Member {
    Member(before, KeyTree(pair.column), "", " ", ValueTree(parse, pair.value), "")
  }

  function PairMembers(parse: string -> Option<Json>, before: string, pairs: seq<Pair>): Members
    decreases |pairs|
  {
    if pairs == [] then NoMembers("")
    else if |pairs| == 1 then LastMember(PairMember(parse, before, pairs[0]))
    else MoreMembers(PairMember(parse, before, pairs[0]), PairMembers(parse, " ", pairs[1..]))
  }

  function PairsTree(parse: string -> Option<Json>, pairs: seq<Pair>): Json {
    Obj(PairMembers(parse, "", pairs))
  }

  function SetMember(parse: string -> Option<Json>, pairs: seq<Pair>): Member {
    Member("", Bare("$set"), "", " ", PairsTree(parse, pairs), "")
  }

  function SetTree(parse: string -> Option<Json>, pairs: seq<Pair>): Json {
    Obj(LastMember(SetMember(parse, pairs)))
  }

  function ChangedPairs(change: RowChange): seq<Pair> {
    match change
    case SetValue(pair) => [pair]
    case SetValues(pairs) => pairs
    case DeleteRow => []
  }

  function EditTree(parse: string -> Option<Json>, edit: Edit): TreeQuery {
    var filter := Arg("", PairsTree(parse, edit.key), "");
    TreeQuery(edit.table, [
      if edit.change.DeleteRow? then TreeCall("deleteOne", "", [filter])
      else TreeCall("updateOne", "", [filter, Arg(" ", SetTree(parse, ChangedPairs(edit.change)), "")])])
  }

  // ----- what the edit needs

  /** The reader accepts only JSON: the tree it gives is strict and its text is the text read. */
  ghost predicate ReadsJson(u: Unicode, parse: string -> Option<Json>) {
    forall s: string | parse(s).Some? && Trimmed(s) ::
      Wf(u, parse(s).value) && IsStrict(parse(s).value) && Render(parse(s).value) == s
  }

  /** A field name without backslashes and control characters. */
  predicate GoodField(field: string) {
    forall i | 0 <= i < |field| :: field[i] != '\\' && field[i] >= ' '
  }

  predicate GoodFields(pairs: seq<Pair>) {
    forall i | 0 <= i < |pairs| :: GoodField(pairs[i].column)
  }

  /** A value that looks like a constructor call is one whole call: it has two quotes, and no closing
      parenthesis between them. */
  predicate WholeCall(prefix: string, s: string) {
    LooksLikeCall(prefix, s) ==> |prefix| + 2 <= |s| && ')' !in CallBody(prefix, s)
  }

  predicate WholeValue(value: string) {
    WholeCall(OBJECT_ID, Trim(value)) && WholeCall(ISO_DATE, Trim(value))
  }

  predicate WholePairs(pairs: seq<Pair>) {
    forall i | 0 <= i < |pairs| :: WholeValue(pairs[i].value)
  }

  predicate GoodPair(pair: Pair) {
    GoodField(pair.column) && WholeValue(pair.value)
  }

  predicate GoodPairs(pairs: seq<Pair>) {
    forall i | 0 <= i < |pairs| :: GoodPair(pairs[i])
  }

  /** A value that looks like a call has one string literal between its parentheses. */
  predicate ClosedValue(value: string) {
    var s := Trim(value);
    && (LooksLikeCall(OBJECT_ID, s) ==> JsComments.LeavesOpen('"', CallBody(OBJECT_ID, s)))
    && (LooksLikeCall(ISO_DATE, s) ==> JsComments.LeavesOpen('"', CallBody(ISO_DATE, s)))
  }

  predicate ClosedPairs(pairs: seq<Pair>) {
    forall i | 0 <= i < |pairs| :: ClosedValue(pairs[i].value)
  }

  // ----- the trees are well formed and print as the command

  lemma {:induction false} EscapedText(field: string)
    ensures UnitsText(seq(|field|, i requires 0 <= i < |field| => QuoteUnit(field[i]))) == EscapeQuotes(field)
  {
    if field != "" {
      EscapedText(field[1..]);
      assert seq(|field|, i requires 0 <= i < |field| => QuoteUnit(field[i]))[1..]
        == seq(|field[1..]|, i requires 0 <= i < |field[1..]| => QuoteUnit(field[1..][i]));
    }
  }

  lemma BareKeyIsIdentifier(u: Unicode, field: string)
    requires Coherent(u) && IsBareKey(field)
    ensures IsIdentifier(u, field)
  {
    forall i | 0 <= i < |field| ensures InWord(u, field[i]) {
      AsciiChar(u, field[i]);
    }
    AsciiChar(u, field[0]);
  }

  /** A field name becomes a key that denotes it. */
  lemma KeyOfField(u: Unicode, field: string)
    requires Coherent(u) && GoodField(field)
    ensures WfKey(u, KeyTree(field)) && KeyText(KeyTree(field)) == FieldKey(field)
    ensures KeyCodes(KeyTree(field)) == Codes(field)
  {
    if IsBareKey(field) {
      BareKeyIsIdentifier(u, field);
    } else {
      EscapedText(field);
      var lit := KeyTree(field).lit;
      forall i | 0 <= i < |field| ensures ValidUnit('"', lit.units[i]) && UnitCode(lit.units[i]) == field[i] as nat {
        assert lit.units[i] == QuoteUnit(field[i]);
      }
    }
  }

  lemma UnitWidth(un: Unit, c: char)
    requires ValidUnit('"', un) && UnitCode(un) == c as nat
    ensures |UnitText(un)| >= if c == '"' then 2 else 1
    ensures c != '"' && |UnitText(un)| == 1 ==> c != '\\' && c >= ' '
  {
  }

  /** A literal takes at least as much text as the escaped field it denotes, and just as much only when
      all but the quotes stand for themselves. */
  lemma {:induction false} UnitsWidth(units: seq<Unit>, field: string)
    requires |units| == |field|
    requires forall i | 0 <= i < |field| :: ValidUnit('"', units[i]) && UnitCode(units[i]) == field[i] as nat
    ensures |UnitsText(units)| >= |EscapeQuotes(field)|
    ensures |UnitsText(units)| == |EscapeQuotes(field)| ==> GoodField(field)
  {
    hide UnitText, ValidUnit, UnitCode;
    if field != "" {
      UnitWidth(units[0], field[0]);
      UnitsWidth(units[1..], field[1..]);
      assert forall i | 0 < i < |field| :: field[i] == field[1..][i - 1];
    }
  }

  lemma KeyLiteral(lit: Lit, field: string)
    requires WfLit(lit) && LitText(lit) == "\"" + EscapeQuotes(field) + "\"" && LitCodes(lit) == Codes(field)
    ensures GoodField(field)
  {
    hide EscapeQuotes, UnitsText, ValidUnit, UnitCode;
    assert LitText(lit)[0] == '"';
    assert |lit.units| == |LitCodes(lit)| == |Codes(field)| == |field|;
    forall i | 0 <= i < |field| ensures ValidUnit('"', lit.units[i]) && UnitCode(lit.units[i]) == field[i] as nat {
      assert LitCodes(lit)[i] == Codes(field)[i];
    }
    UnitsWidth(lit.units, field);
  }

  lemma KeyIsGood(u: Unicode, key: Key, field: string)
    requires Coherent(u) && WfKey(u, key) && KeyText(key) == FieldKey(field) && KeyCodes(key) == Codes(field)
    ensures GoodField(field)
  {
    if !IsBareKey(field) {
      match key
      case Bare(name) => WordIsNotSpace(u, name[0]);
      case Named(lit) => KeyLiteral(lit, field);
    }
  }

  /** A field name is written as some key that denotes it exactly when it has no backslash and no control
      character. */
  lemma KeyOfFieldIff(u: Unicode, field: string)
    requires Coherent(u)
    ensures (exists key :: WfKey(u, key) && KeyText(key) == FieldKey(field) && KeyCodes(key) == Codes(field))
      <==> GoodField(field)
  {
    hide WfKey, KeyText, FieldKey, KeyCodes, GoodField;
    if GoodField(field) {
      KeyOfField(u, field);
    }
    forall key | WfKey(u, key) && KeyText(key) == FieldKey(field) && KeyCodes(key) == Codes(field)
      ensures GoodField(field)
    {
      KeyIsGood(u, key, field);
    }
  }

  /** A field is written bare exactly when it is an identifier of ASCII letters, digits, `_` and `$`; any other
      one stands in double quotes, with its own quotes escaped. */
  lemma FieldWritten(field: string, a: string, b: string)
    ensures FieldKey(field) == field <==>
      && field != "" && !('0' <= field[0] <= '9')
      && forall i | 0 <= i < |field| ::
           || 'a' <= field[i] <= 'z' || 'A' <= field[i] <= 'Z' || '0' <= field[i] <= '9'
           || field[i] == '_' || field[i] == '$'
    ensures FieldKey(field) != field ==> FieldKey(field) == "\"" + EscapeQuotes(field) + "\""
    ensures EscapeQuotes(a + "\"" + b) == EscapeQuotes(a) + "\\\"" + EscapeQuotes(b)
    ensures '"' !in a ==> EscapeQuotes(a) == a
  {
    QuotesEscaped(field, "");
    QuotesEscaped(a, b);
    if !IsBareKey(field) {
      assert |FieldKey(field)| > |field|;
    }
  }

  lemma {:induction false} QuotesEscaped(a: string, b: string)
    ensures EscapeQuotes(a + "\"" + b) == EscapeQuotes(a) + "\\\"" + EscapeQuotes(b)
    ensures ('"' !in a ==> EscapeQuotes(a) == a) && |EscapeQuotes(a)| >= |a|
  {
    hide EscapeQuotes;
    EscapeFirst("\"", b);
    if a == "" {
      assert a + "\"" + b == "\"" + b && "\""[1..] + b == b;
      EscapeNothing();
      assert "" + "\\\"" + EscapeQuotes(b) == "\\\"" + EscapeQuotes(b);
    } else {
      QuotesEscaped(a[1..], b);
      EscapeFirst(a, "\"" + b);
      EscapeFirst(a, "");
      assert a + "\"" + b == a + ("\"" + b) && a[1..] + "\"" + b == a[1..] + ("\"" + b);
      assert a + "" == a && a[1..] + "" == a[1..];
      assert a == [a[0]] + a[1..];
    }
  }

  lemma EscapeNothing()
    ensures EscapeQuotes("") == ""
  {
  }

  lemma EscapeFirst(a: string, rest: string)
    requires a != ""
    ensures EscapeQuotes(a + rest) == (if a[0] == '"' then "\\\"" else [a[0]]) + EscapeQuotes(a[1..] + rest)
  {
    assert (a + rest)[1..] == a[1..] + rest;
  }

  /** Such a field name. */
  lemma BackslashInField(u: Unicode, key: Key)
    requires Coherent(u) && WfKey(u, key) && KeyText(key) == FieldKey("a\\b")
    ensures KeyCodes(key) != Codes("a\\b")
  {
    hide WfKey, KeyText, FieldKey, KeyCodes;
    assert "a\\b"[1] == '\\';
    KeyOfFieldIff(u, "a\\b");
  }

  lemma CallSlices(prefix: string, s: string)
    requires prefix <= s && |prefix| + 2 <= |s| && s[|s| - 2..] == "\")"
    ensures s == prefix + s[|prefix|..|s| - 2] + "\")"
  {
    assert s == s[..|prefix|] + s[|prefix|..|s| - 2] + s[|s| - 2..];
  }

  lemma CallJoins(name: string, body: string)
    ensures name + ("" + ("(" + ("" + (['"'] + body + ['"']) + "" + ")"))) == name + "(\"" + body + "\")"
  {
  }

  predicate OpensCall(name: string, prefix: string) {
    (name == "ObjectId" && prefix == OBJECT_ID) || (name == "ISODate" && prefix == ISO_DATE)
  }

  lemma CallTreeText(u: Unicode, name: string, prefix: string, s: string)
    requires OpensCall(name, prefix) && LooksLikeCall(prefix, s) && WholeCall(prefix, s)
    ensures Render(CallTree(name, prefix, s)) == s && Wf(u, CallTree(name, prefix, s))
  {
    CallSlices(prefix, s);
    CallJoins(name, s[|prefix|..|s| - 2]);
    assert prefix == name + "(\"";
  }

  lemma ValueTreeText(u: Unicode, parse: string -> Option<Json>, value: string)
    requires ReadsJson(u, parse) && WholeValue(value)
    ensures Wf(u, ValueTree(parse, value)) && Render(ValueTree(parse, value)) == ValueLiteral(parse, value)
  {
    hide Trim, CallTree, StringLit, LooksLikeCall;
    var trimmed := Trim(value);
    if LooksLikeCall(OBJECT_ID, trimmed) {
      CallTreeText(u, "ObjectId", OBJECT_ID, trimmed);
    } else if LooksLikeCall(ISO_DATE, trimmed) {
      CallTreeText(u, "ISODate", ISO_DATE, trimmed);
    } else if parse(trimmed).Some? {
      ShellRoundTrip.TrimIsTrimmed(value);
    } else {
      StringLitCodes(value);
    }
  }

  lemma PairMemberText(u: Unicode, parse: string -> Option<Json>, before: string, pair: Pair)
    requires Coherent(u) && ReadsJson(u, parse) && GoodPair(pair) && IsSpace(before)
    ensures WfMember(u, PairMember(parse, before, pair))
    ensures RenderMember(PairMember(parse, before, pair)) == before + PairText(parse, pair)
  {
    hide Trim, ReadsJson, Coherent, GoodField, WholeValue, ValueTree, ValueLiteral, KeyTree, FieldKey, Render,
         KeyText, WfKey;
    KeyOfField(u, pair.column);
    ValueTreeText(u, parse, pair.value);
    MemberText(before, FieldKey(pair.column), ValueLiteral(parse, pair.value));
  }

  lemma MemberText(before: string, key: string, value: string)
    ensures before + (key + ("" + (":" + (" " + (value + ""))))) == before + (key + ": " + value)
  {
  }

  lemma {:induction false} PairMembersText(u: Unicode, parse: string -> Option<Json>, before: string, pairs: seq<Pair>)
    requires Coherent(u) && ReadsJson(u, parse) && GoodPairs(pairs) && IsSpace(before)
    ensures WfMembers(u, PairMembers(parse, before, pairs))
    ensures pairs != [] ==>
      RenderMembers(PairMembers(parse, before, pairs)) == before + Join(PairTexts(parse, pairs), ", ")
    decreases |pairs|
  {
    hide PairMember, PairText, GoodPair, Coherent, ReadsJson, RenderMember, WfMember;
    if |pairs| >= 1 {
      PairMemberText(u, parse, before, pairs[0]);
    }
    if |pairs| > 1 {
      PairMembersText(u, parse, " ", pairs[1..]);
      var rest := Join(PairTexts(parse, pairs[1..]), ", ");
      assert PairTexts(parse, pairs)[1..] == PairTexts(parse, pairs[1..]);
      SpacedJoin(before, PairText(parse, pairs[0]), rest);
    }
  }

  lemma SpacedJoin(before: string, first: string, rest: string)
    ensures before + first + ("," + (" " + rest)) == before + (first + ", " + rest)
  {
  }

  lemma PairsTreeText(u: Unicode, parse: string -> Option<Json>, pairs: seq<Pair>)
    requires Coherent(u) && ReadsJson(u, parse) && GoodPairs(pairs)
    ensures Wf(u, PairsTree(parse, pairs)) && Render(PairsTree(parse, pairs)) == PairsLiteral(parse, pairs)
  {
    hide PairText, GoodPair, Coherent, ReadsJson, PairMember;
    PairMembersText(u, parse, "", pairs);
    var text := Join(PairTexts(parse, pairs), ", ");
    assert "{" + ("" + text + "}") == "{" + text + "}";
  }

  lemma OneMemberText(u: Unicode, m: Member)
    requires WfMember(u, m)
    ensures Render(Obj(LastMember(m))) == "{" + (RenderMember(m) + "}") && Wf(u, Obj(LastMember(m)))
  {
    hide RenderMember, WfMember;
    assert RenderMembers(LastMember(m)) == RenderMember(m) && WfMembers(u, LastMember(m));
  }

  lemma SetIsBare()
    ensures IsBareKey("$set")
  {
  }

  lemma SetMemberText(u: Unicode, parse: string -> Option<Json>, pairs: seq<Pair>)
    requires Coherent(u) && ReadsJson(u, parse) && GoodPairs(pairs)
    ensures WfMember(u, SetMember(parse, pairs))
    ensures RenderMember(SetMember(parse, pairs)) == "$set: " + PairsLiteral(parse, pairs)
  {
    hide ReadsJson, GoodPairs, PairsTree, PairsLiteral, Coherent, IsIdentifier, IsBareKey;
    PairsTreeText(u, parse, pairs);
    SetIsBare();
    BareKeyIsIdentifier(u, "$set");
    MemberText("", "$set", PairsLiteral(parse, pairs));
  }

  lemma SetTreeText(u: Unicode, parse: string -> Option<Json>, pairs: seq<Pair>)
    requires Coherent(u) && ReadsJson(u, parse) && GoodPairs(pairs)
    ensures Wf(u, SetTree(parse, pairs))
    ensures Render(SetTree(parse, pairs)) == "{$set: " + PairsLiteral(parse, pairs) + "}"
  {
    hide ReadsJson, GoodPairs, PairsLiteral, SetMember;
    SetMemberText(u, parse, pairs);
    OneMemberText(u, SetMember(parse, pairs));
    assert "{" + ("$set: " + PairsLiteral(parse, pairs) + "}") == "{$set: " + PairsLiteral(parse, pairs) + "}";
  }

  // ----- the trees are closed

  lemma {:induction false} StrictIsClosed(v: Json)
    requires IsStrict(v)
    ensures Closed(v)
  {
    match v
    case Arr(items) => StrictItemsClosed(items);
    case Obj(members) => StrictMembersClosed(members);
    case _ =>
  }

  lemma {:induction false} StrictItemsClosed(items: Items)
    requires StrictItemsForm(items)
    ensures ClosedItems(items)
  {
    match items
    case NoItems(_) =>
    case LastItem(_, value, _) => StrictIsClosed(value);
    case Item(_, value, _, rest) =>
      StrictIsClosed(value);
      StrictItemsClosed(rest);
  }

  lemma {:induction false} StrictMembersClosed(members: Members)
    requires StrictMembersForm(members)
    ensures ClosedMembers(members)
  {
    match members
    case NoMembers(_) =>
    case LastMember(m) => StrictIsClosed(m.value);
    case MoreMembers(m, rest) =>
      StrictIsClosed(m.value);
      StrictMembersClosed(rest);
  }

  lemma ValueClosed(u: Unicode, parse: string -> Option<Json>, value: string)
    requires ReadsJson(u, parse) && ClosedValue(value)
    ensures Closed(ValueTree(parse, value))
  {
    hide Trim, StringLit, LooksLikeCall;
    var trimmed := Trim(value);
    if !LooksLikeCall(OBJECT_ID, trimmed) && !LooksLikeCall(ISO_DATE, trimmed) && parse(trimmed).Some? {
      ShellRoundTrip.TrimIsTrimmed(value);
      StrictIsClosed(parse(trimmed).value);
    }
  }

  lemma {:induction false} PairsClosed(u: Unicode, parse: string -> Option<Json>, before: string, pairs: seq<Pair>)
    requires ReadsJson(u, parse) && ClosedPairs(pairs)
    ensures ClosedMembers(PairMembers(parse, before, pairs))
    decreases |pairs|
  {
    hide ValueTree, Closed, ClosedValue;
    if pairs != [] {
      assert ClosedValue(pairs[0].value);
      ValueClosed(u, parse, pairs[0].value);
      PairsClosed(u, parse, " ", pairs[1..]);
    }
  }

  lemma PairsTreeClosed(u: Unicode, parse: string -> Option<Json>, pairs: seq<Pair>)
    requires ReadsJson(u, parse) && ClosedPairs(pairs)
    ensures Closed(PairsTree(parse, pairs)) && Closed(SetTree(parse, pairs))
  {
    PairsClosed(u, parse, "", pairs);
    var m := SetMember(parse, pairs);
    assert Closed(m.value) && ClosedMembers(LastMember(m));
  }

  // ----- what the trees mean

  function WrapperValue(key: string, content: string): Value {
    ObjectValue([Field(Codes(key), StringValue(Codes(content)))])
  }

  /** What a value typed into the grid means: the wrapper of the constructor it calls, or what the JSON
      reader makes of it, or else the string of its own characters. */
  function TypedMeaning(parse: string -> Option<Json>, value: string): Value {
    var s := Trim(value);
    if LooksLikeCall(OBJECT_ID, s) then WrapperValue("$oid", CallBody(OBJECT_ID, s))
    else if LooksLikeCall(ISO_DATE, s) then WrapperValue("$date", CallBody(ISO_DATE, s))
    else if parse(s).Some? then Denote(parse(s).value)
    else StringValue(Codes(value))
  }

  lemma TreeMeaning(parse: string -> Option<Json>, value: string)
    ensures Denote(ValueTree(parse, value)) == TypedMeaning(parse, value)
  {
    hide Trim, LooksLikeCall;
    StringLitCodes(value);
  }

  function PairFields(parse: string -> Option<Json>, pairs: seq<Pair>): seq<Field> {
    if pairs == [] then []
    else [Field(Codes(pairs[0].column), TypedMeaning(parse, pairs[0].value))] + PairFields(parse, pairs[1..])
  }

  lemma MemberDenotes(u: Unicode, parse: string -> Option<Json>, before: string, pair: Pair)
    requires Coherent(u) && GoodPair(pair)
    ensures DenoteMember(PairMember(parse, before, pair))
      == Field(Codes(pair.column), TypedMeaning(parse, pair.value))
  {
    hide ValueTree, KeyTree, Denote, Coherent, TypedMeaning;
    KeyOfField(u, pair.column);
    TreeMeaning(parse, pair.value);
  }

  /** The strict form of a filter or a change has exactly the edited columns, in order, each with its
      value. */
  lemma {:induction false} PairsDenote(u: Unicode, parse: string -> Option<Json>, before: string, pairs: seq<Pair>)
    requires Coherent(u) && GoodPairs(pairs)
    ensures DenoteMembers(PairMembers(parse, before, pairs)) == PairFields(parse, pairs)
    decreases |pairs|
  {
    hide PairMember, TypedMeaning, GoodPair, Coherent, DenoteMember;
    if pairs != [] {
      MemberDenotes(u, parse, before, pairs[0]);
      PairsDenote(u, parse, " ", pairs[1..]);
    }
  }

  lemma SetDenotes(u: Unicode, parse: string -> Option<Json>, pairs: seq<Pair>)
    requires Coherent(u) && ReadsJson(u, parse) && GoodPairs(pairs)
    ensures Denote(Strict(SetTree(parse, pairs)))
      == ObjectValue([Field(Codes("$set"), ObjectValue(PairFields(parse, pairs)))])
  {
    hide PairMembers, GoodPairs, ReadsJson, Coherent, PairFields, Strict, Wf, PairsLiteral;
    SetTreeText(u, parse, pairs);
    StrictKeeps(u, SetTree(parse, pairs));
    PairsDenote(u, parse, "", pairs);
    var m := SetMember(parse, pairs);
    assert DenoteMember(m) == Field(Codes("$set"), ObjectValue(PairFields(parse, pairs)));
    assert DenoteMembers(LastMember(m)) == [DenoteMember(m)];
  }
}
