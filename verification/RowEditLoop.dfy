/** The MongoDB command of a row edit and what it parses to. */
module RowEditLoop {
  import opened Text
  import opened JsonSyntax
  import opened JsComments
  import opened ShellQuery
  import opened ShellRoundTrip
  import opened ShellTrees
  import opened RowEdit
  import opened RelaxJson
  import opened RowEditReading
  import ExtJson
  import RelaxMeaning

  // ----- the command is the printed form of one call

  function Method(change: RowChange): string {
    if change.DeleteRow? then "deleteOne" else "updateOne"
  }

  function EditArgs(parse: string -> Option<Json>, edit: Edit): seq<string> {
    var filter := PairsLiteral(parse, edit.key);
    if edit.change.DeleteRow? then [filter] else [filter, " " + SetText(parse, ChangedPairs(edit.change))]
  }

  /** The call that the edit means, on the collection of that name. */
  function EditQuery(parse: string -> Option<Json>, edit: Edit): Query<string> {
    Query(edit.table, [Call(Method(edit.change), EditArgs(parse, edit))])
  }

  lemma JoinTwo(a: string, b: string)
    ensures Join([a, b], ",") == a + "," + b
  {
    assert [a, b][1..] == [b];
  }

  lemma OneCallText(table: string, call: Call<string>)
    ensures QueryText(Query(table, [call]))
      == "db." + (table + ("." + (call.name + ("(" + (Join(call.args, ",") + ")")))))
  {
    hide Join;
  }

  lemma UpdateJoins(table: string, filter: string, change: string)
    ensures "db." + (table + ("." + ("updateOne" + ("(" + (filter + "," + (" " + change) + ")")))))
      == "db." + table + ".updateOne(" + filter + ", " + change + ")"
  {
  }

  lemma DeleteJoins(table: string, filter: string)
    ensures "db." + (table + ("." + ("deleteOne" + ("(" + (filter + ")")))))
      == "db." + table + ".deleteOne(" + filter + ")"
  {
  }

  lemma TextAround(before: string, text: string)
    ensures before + ", {$set: " + text + "})" == before + ", " + ("{$set: " + text + "}") + ")"
  {
  }

  lemma UpdateTextIs(parse: string -> Option<Json>, edit: Edit, pairs: seq<Pair>)
    ensures UpdateText(parse, edit, pairs)
      == "db." + edit.table + ".updateOne(" + PairsLiteral(parse, edit.key) + ", " + SetText(parse, pairs) + ")"
  {
    hide PairsLiteral;
    TextAround("db." + edit.table + ".updateOne(" + PairsLiteral(parse, edit.key), PairsLiteral(parse, pairs));
  }

  /** Whatever the table, the columns and the values are, the command is the printed form of one call. */
  lemma EditIsPrinted(parse: string -> Option<Json>, edit: Edit)
    ensures EditCommand(parse, edit) == QueryText(EditQuery(parse, edit))
  {
    hide PairsLiteral, QueryText, SetText, UpdateText;
    var filter := PairsLiteral(parse, edit.key);
    OneCallText(edit.table, EditQuery(parse, edit).calls[0]);
    if edit.change.DeleteRow? {
      DeleteJoins(edit.table, filter);
    } else {
      var pairs := ChangedPairs(edit.change);
      JoinTwo(filter, " " + SetText(parse, pairs));
      UpdateJoins(edit.table, filter, SetText(parse, pairs));
      UpdateTextIs(parse, edit, pairs);
    }
  }

  // ----- exactly which tables are parsed back

  lemma MethodTrimmed(change: RowChange)
    ensures Trimmed(Method(change)) && '(' !in Method(change)
    ensures QuoteFree(Method(change)) && !OpensComment(Method(change))
  {
  }

  lemma EditArgsTidy(parse: string -> Option<Json>, edit: Edit)
    ensures TidyArgs(EditArgs(parse, edit))
  {
    hide Join, PairTexts;
    var filter := PairsLiteral(parse, edit.key);
    var text := Join(EditArgs(parse, edit), ",");
    assert filter[0] == '{' && filter[|filter| - 1] == '}';
    if edit.change.DeleteRow? {
      OneJoined(filter);
    } else {
      var change := SetText(parse, ChangedPairs(edit.change));
      assert change[|change| - 1] == '}';
      JoinTwo(filter, " " + change);
      EndsLike(filter + ",", " " + change);
    }
  }

  lemma OneJoined(a: string)
    ensures Join([a], ",") == a
  {
  }

  /** The table is read up to the dot that ends it, no comment token is in the command, and the texts of
      the arguments close what they open. */
  predicate FoundAsWritten(parse: string -> Option<Json>, edit: Edit) {
    PlainName(edit.table) && NoComments(EditCommand(parse, edit)) && GoodArgs(EditArgs(parse, edit))
  }

  /** For every edit, the command parses back to its table, its method and its argument texts exactly
      when the table has no dot and does not start with `getCollection(`, no comment token is in the
      command, and the arguments close what they open. */
  lemma EditParsesBackIff(parse: string -> Option<Json>, edit: Edit)
    ensures ParseQuery(Verbatim, EditCommand(parse, edit)) == Ok(EditQuery(parse, edit))
      <==> FoundAsWritten(parse, edit)
  {
    hide ParseQuery, EditCommand, EditArgs, Method, GoodArgs, NoComments, PlainName, QueryText, TidyArgs;
    EditIsPrinted(parse, edit);
    MethodTrimmed(edit.change);
    EditArgsTidy(parse, edit);
    var q := EditQuery(parse, edit);
    assert TidyCall(q.calls[0]);
    RoundTripIff(q);
    if ReadsBack(q) {
      assert GoodArgs(q.calls[0].args);
    }
  }

  lemma MovedDot(a: string, b: string, rest: string)
    ensures "db." + ((a + "." + b) + ("." + rest)) == "db." + (a + ("." + (b + "." + rest)))
  {
  }

  lemma LongerName(b: string, name: string, rest: string)
    ensures b + "." + (name + rest) == b + "." + name + rest
  {
  }

  /** For a table with a dot the command is that of another collection with another method. */
  lemma DottedTableText(parse: string -> Option<Json>, edit: Edit, a: string, b: string)
    requires edit.table == a + "." + b
    ensures EditCommand(parse, edit)
      == QueryText(Query(a, [Call(b + "." + Method(edit.change), EditArgs(parse, edit))]))
  {
    hide QueryText, EditArgs, Method, EditCommand, Join;
    var call := EditQuery(parse, edit).calls[0];
    var inside := "(" + (Join(call.args, ",") + ")");
    EditIsPrinted(parse, edit);
    OneCallText(edit.table, call);
    OneCallText(a, Call(b + "." + call.name, call.args));
    MovedDot(a, b, call.name + inside);
    LongerName(b, call.name, inside);
  }

  /** So it is parsed to that one: the collection up to the first dot, and the rest of the table's name
      in front of the method. */
  lemma DottedTable<J>(convert: string -> Option<J>, parse: string -> Option<Json>, edit: Edit, a: string, b: string)
    requires edit.table == a + "." + b && PlainName(a) && '(' !in b
    requires GoodArgs(EditArgs(parse, edit)) && NoComments(EditCommand(parse, edit))
    ensures ParseQuery(convert, EditCommand(parse, edit))
      == ConvertQuery(convert, Tidy(Query(a, [Call(b + "." + Method(edit.change), EditArgs(parse, edit))])))
  {
    hide ParseQuery, QueryText, EditArgs, EditCommand, GoodArgs, NoComments, PlainName, Tidy, ConvertQuery, Method;
    DottedTableText(parse, edit, a, b);
    MethodTrimmed(edit.change);
    var q := Query(a, [Call(b + "." + Method(edit.change), EditArgs(parse, edit))]);
    assert GoodCall(q.calls[0]);
    ParsePrinted(convert, q);
  }

  lemma EmptyFilter()
    ensures GoodArgs(["{}"]) && Tight(["{}"]) == ["{}"]
  {
    assert "{}"[1..] == "}" && "}"[1..] == "";
    TightTidy(["{}"]);
  }

  /** The collection `fs.files`, which a result of `db.getCollection("fs.files").find({})` is edited
      under: the delete is read as a method `files.deleteOne` of a collection `fs`. */
  lemma FilesTable(parse: string -> Option<Json>)
    ensures ParseQuery(Verbatim, EditCommand(parse, Edit("fs.files", [], DeleteRow)))
      == Ok(Query("fs", [Call("files.deleteOne", ["{}"])]))
  {
    hide ParseQuery, EditCommand, QueryText, NoComments, GoodArgs, Tight, Trim, ConvertCalls;
    var edit := Edit("fs.files", [], DeleteRow);
    FilesArgs(parse);
    EmptyFilter();
    FilesText(parse);
    assert "fs" + "." + "files" == "fs.files" && "files" + "." + "deleteOne" == "files.deleteOne";
    DottedTable(Verbatim, parse, edit, "fs", "files");
    TrimmedStays("files.deleteOne");
    var call: Call<string> := Call("files.deleteOne", ["{}"]);
    assert TidyCalls([call]) == [call];
    VerbatimCalls([call]);
  }

  lemma FilesArgs(parse: string -> Option<Json>)
    ensures EditArgs(parse, Edit("fs.files", [], DeleteRow)) == ["{}"] && PairsLiteral(parse, []) == "{}"
  {
    assert PairTexts(parse, []) == [];
    assert "{" + "" + "}" == "{}";
  }

  lemma FilesText(parse: string -> Option<Json>)
    ensures NoComments(EditCommand(parse, Edit("fs.files", [], DeleteRow)))
  {
    hide NoComments, PairsLiteral;
    FilesArgs(parse);
    assert PlainText("db.") && PlainText("fs.files") && PlainText(".deleteOne(") && PlainText("{}") && PlainText(")");
    PlainHasNoComments("db." + "fs.files" + ".deleteOne(" + "{}" + ")");
  }

  // ----- how the arguments are read

  /** The filter, and the change of an update, as what they stand for. */
  function StrictArgs(parse: string -> Option<Json>, edit: Edit): seq<string> {
    var filter := Render(Strict(PairsTree(parse, edit.key)));
    if edit.change.DeleteRow? then [filter] else [filter, Render(Strict(SetTree(parse, ChangedPairs(edit.change))))]
  }

  function StrictQuery(parse: string -> Option<Json>, edit: Edit): Query<string> {
    Query(edit.table, [Call(Method(edit.change), StrictArgs(parse, edit))])
  }

  /** The arguments as they are handed to the JSON reader. */
  function RelaxedArgs(u: Unicode, parse: string -> Option<Json>, edit: Edit): seq<string> {
    var filter := Relax(u, PairsLiteral(parse, edit.key));
    if edit.change.DeleteRow? then [filter] else [filter, Relax(u, SetText(parse, ChangedPairs(edit.change)))]
  }

  predicate EditFields(edit: Edit) {
    GoodFields(edit.key) && GoodFields(ChangedPairs(edit.change))
  }

  predicate WholeEdit(edit: Edit) {
    WholePairs(edit.key) && WholePairs(ChangedPairs(edit.change))
  }

  predicate ClosedEdit(edit: Edit) {
    ClosedPairs(edit.key) && ClosedPairs(ChangedPairs(edit.change))
  }

  lemma PairsAreTrimmed(parse: string -> Option<Json>, pairs: seq<Pair>)
    ensures Trim(PairsLiteral(parse, pairs)) == PairsLiteral(parse, pairs)
    ensures Trim(" " + SetText(parse, pairs)) == SetText(parse, pairs)
  {
    hide PairTexts, Trim, Join;
    TrimmedStays(PairsLiteral(parse, pairs));
    var text := SetText(parse, pairs);
    assert text[0] == '{' && text[|text| - 1] == '}';
    TrimPadded(" ", text, "");
    assert " " + text + "" == " " + text;
  }

  lemma ConvertOne<J>(convert: string -> Option<J>, a: string)
    ensures ConvertAll(convert, [a])
      == match convert(a) case None => Err(InvalidArgument) case Some(value) => Ok([value])
  {
    assert ConvertAll(convert, [a][1..]) == Ok([]);
    if convert(a).Some? {
      assert [convert(a).value] + [] == [convert(a).value];
    }
  }

  lemma ConvertTwo<J>(convert: string -> Option<J>, a: string, b: string)
    requires convert(a).Some? && convert(b).Some?
    ensures ConvertAll(convert, [a, b]) == Ok([convert(a).value, convert(b).value])
  {
    assert [a, b][1..] == [b];
    ConvertOne(convert, b);
    assert [convert(a).value] + [convert(b).value] == [convert(a).value, convert(b).value];
  }

  lemma ConvertArgs(u: Unicode, parse: string -> Option<Json>, edit: Edit)
    ensures ConvertAll(Reader(u, Verbatim), EditArgs(parse, edit)) == Ok(RelaxedArgs(u, parse, edit))
  {
    hide Relax, PairsLiteral, SetText, ConvertAll, Reader;
    var filter := PairsLiteral(parse, edit.key);
    PairsAreTrimmed(parse, edit.key);
    ReaderReads(u, Verbatim, filter);
    if edit.change.DeleteRow? {
      ConvertOne(Reader(u, Verbatim), filter);
    } else {
      var pairs := ChangedPairs(edit.change);
      PairsAreTrimmed(parse, pairs);
      ReaderReads(u, Verbatim, " " + SetText(parse, pairs));
      ConvertTwo(Reader(u, Verbatim), filter, " " + SetText(parse, pairs));
    }
  }

  lemma ConvertSingle<J>(convert: string -> Option<J>, q: Query<string>, args: seq<J>)
    requires |q.calls| == 1 && ConvertAll(convert, q.calls[0].args) == Ok(args)
    ensures ConvertQuery(convert, q) == Ok(Query(q.collection, [Call(q.calls[0].name, args)]))
  {
    hide ConvertAll;
    assert ConvertCalls(convert, q.calls[1..]) == Ok([]);
    var call := Call(q.calls[0].name, args);
    assert [call] + [] == [call];
  }

  /** What the JSON reader is given when the command is found as it was written. */
  lemma EditIsRelaxed(u: Unicode, parse: string -> Option<Json>, edit: Edit)
    requires FoundAsWritten(parse, edit)
    ensures ParseQuery(Reader(u, Verbatim), EditCommand(parse, edit))
      == Ok(Query(edit.table, [Call(Method(edit.change), RelaxedArgs(u, parse, edit))]))
  {
    hide ParseQuery, EditCommand, EditArgs, RelaxedArgs, Method, GoodArgs, NoComments, PlainName, QueryText, TidyArgs,
         ConvertQuery, Reader, Tidy;
    var q := EditQuery(parse, edit);
    EditIsPrinted(parse, edit);
    MethodTrimmed(edit.change);
    EditArgsTidy(parse, edit);
    assert GoodCall(q.calls[0]);
    ParsePrinted(Reader(u, Verbatim), q);
    TidyStays(q);
    ConvertArgs(u, parse, edit);
    ConvertSingle(Reader(u, Verbatim), q, RelaxedArgs(u, parse, edit));
  }

  lemma ArgsReadIff(u: Unicode, parse: string -> Option<Json>, edit: Edit)
    requires Coherent(u) && ReadsJson(u, parse) && EditFields(edit)
    ensures RelaxedArgs(u, parse, edit) == StrictArgs(parse, edit) <==> WholeEdit(edit)
  {
    hide Relax, PairsLiteral, SetText, Render, Strict, PairsTree, SetTree, WholePairs, GoodFields, Coherent, ReadsJson;
    PairsReadIff(u, parse, edit.key);
    if edit.change.DeleteRow? {
      NoPairsWhole();
    } else {
      SetReadIff(u, parse, ChangedPairs(edit.change));
    }
  }

  lemma NoPairsWhole()
    ensures WholePairs([])
  {
  }

  /** The command of a row edit parses to that edit: its table, its method, and the filter and the change
      as what they stand for. That is so for exactly the edits that are found as written and whose
      values, where they look like a constructor call, are one whole call. */
  lemma EditRoundTripIff(u: Unicode, parse: string -> Option<Json>, edit: Edit)
    requires Coherent(u) && ReadsJson(u, parse) && EditFields(edit)
    ensures ParseQuery(Verbatim, EditCommand(parse, edit)) == Ok(EditQuery(parse, edit))
        && ParseQuery(Reader(u, Verbatim), EditCommand(parse, edit)) == Ok(StrictQuery(parse, edit))
      <==> FoundAsWritten(parse, edit) && WholeEdit(edit)
  {
    hide ParseQuery, EditCommand, EditQuery, RelaxedArgs, StrictArgs, Method, FoundAsWritten, WholeEdit, EditFields,
         Coherent, ReadsJson, Reader;
    EditParsesBackIff(parse, edit);
    ArgsReadIff(u, parse, edit);
    if FoundAsWritten(parse, edit) {
      EditIsRelaxed(u, parse, edit);
    }
  }

  // ----- what the reader of JSON makes of it

  lemma FieldsAndValues(pairs: seq<Pair>)
    ensures GoodPairs(pairs) <==> GoodFields(pairs) && WholePairs(pairs)
  {
    hide GoodField, WholeValue;
    if GoodPairs(pairs) {
      assert forall i | 0 <= i < |pairs| :: GoodPair(pairs[i]);
    }
  }

  lemma PlainArgument(text: string)
    ensures "" + (text + "") == text && " " + (text + "") == " " + text
  {
  }

  lemma TreeArgs(u: Unicode, parse: string -> Option<Json>, edit: Edit)
    requires Coherent(u) && ReadsJson(u, parse) && EditFields(edit) && WholeEdit(edit)
    ensures var args := EditTree(parse, edit).calls[0].args;
      ArgTexts(args) == EditArgs(parse, edit) && WfArguments(u, args)
  {
    hide ReadsJson, GoodPairs, GoodFields, WholePairs, PairsTree, PairsLiteral, Render, SetTree, SetText, Wf, Coherent;
    var pairs := ChangedPairs(edit.change);
    FieldsAndValues(edit.key);
    FieldsAndValues(pairs);
    PairsTreeText(u, parse, edit.key);
    PlainArgument(PairsLiteral(parse, edit.key));
    var args := EditTree(parse, edit).calls[0].args;
    if edit.change.DeleteRow? {
      assert ArgTexts(args[1..]) == [];
    } else {
      SetTreeText(u, parse, pairs);
      SetTextIs(parse, pairs);
      PlainArgument(SetText(parse, pairs));
      assert ArgTexts(args[1..][1..]) == [];
      assert ArgTexts(args[1..]) == [" " + SetText(parse, pairs)];
    }
  }

  lemma TreeIsEdit(u: Unicode, parse: string -> Option<Json>, edit: Edit)
    requires Coherent(u) && ReadsJson(u, parse) && EditFields(edit) && WholeEdit(edit)
    ensures TextQuery(EditTree(parse, edit)) == EditQuery(parse, edit) && WfCalls(u, EditTree(parse, edit).calls)
  {
    hide ReadsJson, EditFields, WholeEdit, PairsTree, SetTree, EditArgs, ArgTexts, WfArguments, Coherent;
    TreeArgs(u, parse, edit);
    var calls := EditTree(parse, edit).calls;
    MethodTrimmed(edit.change);
    assert CallTexts(calls[1..]) == [];
  }

  /** Then each argument is what the JSON reader makes of the strict form of its tree. */
  lemma EditRoundTrip<J>(u: Unicode, json: string -> Option<J>, parse: string -> Option<Json>, edit: Edit)
    requires Coherent(u) && ReadsJson(u, parse) && EditFields(edit) && WholeEdit(edit) && FoundAsWritten(parse, edit)
    ensures ParseQuery(Reader(u, json), EditCommand(parse, edit)) == ReadTreeQuery(json, EditTree(parse, edit))
  {
    hide ParseQuery, Reader, EditTree, EditCommand, ReadsJson, EditFields, WholeEdit, Coherent, ReadTreeQuery,
         QueryText, NoComments, PlainName, WfCalls, GoodArgs;
    TreeIsEdit(u, parse, edit);
    EditIsPrinted(parse, edit);
    MethodTrimmed(edit.change);
    TreeTable(parse, edit);
    assert GoodCall(EditQuery(parse, edit).calls[0]);
    ParseUndoesPrinting(u, json, EditTree(parse, edit));
  }

  lemma TreeTable(parse: string -> Option<Json>, edit: Edit)
    ensures EditTree(parse, edit).collection == edit.table
  {
  }

  lemma TreeIsClosed(u: Unicode, parse: string -> Option<Json>, edit: Edit)
    requires ReadsJson(u, parse) && ClosedEdit(edit)
    ensures ClosedCalls(EditTree(parse, edit).calls) && EditTree(parse, edit).calls != []
  {
    hide ReadsJson, PairsTree, SetTree, Closed;
    PairsTreeClosed(u, parse, edit.key);
    PairsTreeClosed(u, parse, ChangedPairs(edit.change));
  }

  /** With values that are whole and closed, as all are that do not look like a call, and a table without
      quotes, an edit is found as written exactly when its table has no dot, does not start with
      `getCollection(`, and has no slash followed by a slash or a star. */
  lemma TableDecides(u: Unicode, parse: string -> Option<Json>, edit: Edit)
    requires Coherent(u) && ReadsJson(u, parse) && EditFields(edit) && WholeEdit(edit) && ClosedEdit(edit)
    requires QuoteFree(edit.table)
    ensures FoundAsWritten(parse, edit) <==> PlainName(edit.table) && !OpensComment(edit.table)
  {
    hide ReadsJson, EditFields, WholeEdit, ClosedEdit, Coherent, QueryText, NoComments, WfCalls, ClosedCalls, PairsTree,
         SetTree, OpensComment, QuoteFree, GoodArgs, PlainName;
    TreeIsEdit(u, parse, edit);
    TreeIsClosed(u, parse, edit);
    EditIsPrinted(parse, edit);
    MethodTrimmed(edit.change);
    ClosedIsGood(u, EditTree(parse, edit).calls);
    assert GoodCall(EditQuery(parse, edit).calls[0]);
    NamesDecide(u, EditTree(parse, edit));
  }

  // ----- a shown id

  predicate IsHexText(s: string) {
    forall i | 0 <= i < |s| :: IsHexDigit(s[i])
  }

  /** How the grid shows the id `{"$oid": hex}`. */
  function ShownId(hex: string): string {
    OBJECT_ID + hex + "\")"
  }

  lemma IdIsShown(hex: string)
    ensures ExtJson.Simplify(ExtJson.Dict(ExtJson.Entries("$oid", ExtJson.Str(hex), ExtJson.NoEntries)))
      == ExtJson.Str(ShownId(hex))
  {
    assert OBJECT_ID == "ObjectId" + "(\"";
  }

  function FilterText(hex: string): string {
    "{\"_id\": {\"$oid\": \"" + hex + "\"}}"
  }

  lemma {:induction false} HexString(hex: string)
    requires IsHexText(hex)
    ensures UnitsText(StringLit(hex).units) == hex
  {
    if hex != "" {
      HexString(hex[1..]);
      assert StringLit(hex).units[1..] == StringLit(hex[1..]).units;
      assert hex == [hex[0]] + hex[1..];
    }
  }

  lemma ShownIdParts(hex: string)
    requires IsHexText(hex)
    ensures var s := ShownId(hex);
      && LooksLikeCall(OBJECT_ID, s) && !LooksLikeCall(ISO_DATE, s) && Trim(s) == s
      && |OBJECT_ID| + 2 <= |s| && CallBody(OBJECT_ID, s) == hex && ')' !in hex
  {
    hide Trim;
    var s := ShownId(hex);
    assert s[|s| - 2..] == "\")";
    assert s[|OBJECT_ID| - 1] == '"' && s[0] == 'O' && ISO_DATE[0] == 'I' && s[|s| - 1] == ')';
    TrimmedStays(s);
  }

  function IdTree(hex: string): Json {
    Ctor("ObjectId", "", "", QuotedArg('"', hex), "")
  }

  lemma ShownIdTree(parse: string -> Option<Json>, hex: string)
    requires IsHexText(hex)
    ensures ValueTree(parse, ShownId(hex)) == IdTree(hex) && GoodPair(Pair("_id", ShownId(hex)))
  {
    hide Trim, LooksLikeCall;
    ShownIdParts(hex);
  }

  lemma QuotedHex(hex: string)
    requires IsHexText(hex)
    ensures LitText(StringLit(hex)) == "\"" + hex + "\""
  {
    HexString(hex);
  }

  lemma OidJoins(text: string, hex: string)
    requires text == "\"" + hex + "\""
    ensures "{\"" + "$oid" + "\": " + text + "}" == "{\"$oid\": \"" + hex + "\"}"
  {
  }

  lemma IdStrictText(hex: string)
    requires IsHexText(hex)
    ensures Render(Strict(IdTree(hex))) == "{\"$oid\": \"" + hex + "\"}"
  {
    hide LitText, Render, CtorJson, IsHexText;
    assert Strict(IdTree(hex)) == CtorJson("ObjectId", hex);
    RelaxMeaning.ReplacementText("ObjectId", hex);
    QuotedHex(hex);
    OidJoins(LitText(StringLit(hex)), hex);
  }

  lemma StrictPair(parse: string -> Option<Json>, hex: string)
    requires IsHexText(hex)
    ensures Strict(PairsTree(parse, [Pair("_id", ShownId(hex))]))
      == Obj(LastMember(Member("", Named(PlainLit("_id")), "", " ", Strict(IdTree(hex)), "")))
  {
    hide ValueTree, Strict, IsHexText;
    ShownIdTree(parse, hex);
    assert IsBareKey("_id");
    var m := PairMember(parse, "", Pair("_id", ShownId(hex)));
    assert StrictMembers(LastMember(m)) == LastMember(StrictMember(m));
    StrictObject(LastMember(m));
  }

  lemma StrictObject(members: Members)
    ensures Strict(Obj(members)) == Obj(StrictMembers(members))
  {
  }

  /** The strict form of the filter for a shown id. */
  lemma IdFilter(parse: string -> Option<Json>, hex: string)
    requires IsHexText(hex)
    ensures Render(Strict(PairsTree(parse, [Pair("_id", ShownId(hex))]))) == FilterText(hex)
  {
    hide Strict, PairsTree, IsHexText;
    StrictPair(parse, hex);
    IdStrictText(hex);
    RelaxMeaning.PlainUnitsText("_id");
    var inside := Render(Strict(IdTree(hex)));
    var m := Member("", Named(PlainLit("_id")), "", " ", Strict(IdTree(hex)), "");
    assert LitText(PlainLit("_id")) == "\"_id\"";
    MemberText("", "\"_id\"", inside);
    assert RenderMembers(LastMember(m)) == RenderMember(m) == "" + ("\"_id\"" + ": " + inside);
    FilterJoins(inside, hex);
  }

  lemma FilterJoins(inside: string, hex: string)
    requires inside == "{\"$oid\": \"" + hex + "\"}"
    ensures "{" + ("" + ("\"_id\"" + ": " + inside) + "}") == FilterText(hex)
  {
  }

  function IdEdit(table: string, hex: string, change: RowChange): Edit {
    Edit(table, [Pair("_id", ShownId(hex))], change)
  }

  lemma OneArgument<J>(json: string -> Option<J>, arg: Arg)
    ensures ReadTrees(json, [arg]) ==
      match json(Render(Strict(arg.value)))
      case None => Err(InvalidArgument)
      case Some(value) => Ok([value])
  {
    hide Render, Strict;
    assert ReadTrees(json, [arg][1..]) == Ok([]);
    var read := json(Render(Strict(arg.value)));
    if read.Some? {
      assert [read.value] + [] == [read.value];
    }
  }

  lemma TwoArguments<J>(json: string -> Option<J>, first: Arg, second: Arg)
    ensures ReadTrees(json, [first, second]) ==
      match json(Render(Strict(first.value)))
      case None => Err(InvalidArgument)
      case Some(a) =>
        match json(Render(Strict(second.value)))
        case None => Err(InvalidArgument)
        case Some(b) => Ok([a, b])
  {
    hide Render, Strict;
    assert [first, second][1..] == [second];
    OneArgument(json, second);
    var a, b := json(Render(Strict(first.value))), json(Render(Strict(second.value)));
    if a.Some? && b.Some? {
      assert [a.value] + [b.value] == [a.value, b.value];
    }
  }

  lemma ReadSingleCall<J>(json: string -> Option<J>, q: TreeQuery)
    requires |q.calls| == 1 && Trimmed(q.calls[0].name)
    ensures ReadTreeQuery(json, q) ==
      match ReadTrees(json, q.calls[0].args)
      case Err(e) => Err(e)
      case Ok(args) => Ok(Query(q.collection, [Call(q.calls[0].name, args)]))
  {
    hide ReadTrees, Trim;
    TrimmedStays(q.calls[0].name);
    assert ReadTreeCalls(json, q.calls[1..]) == Ok([]);
    var args := ReadTrees(json, q.calls[0].args);
    if args.Ok? {
      var call := Call(q.calls[0].name, args.value);
      assert [call] + [] == [call];
    }
  }

  /** What the command for a shown id is read as: one call whose first argument is the filter for that
      very id, and whose second one is the strict form of the change. */
  function IdQuery<J>(json: string -> Option<J>, parse: string -> Option<Json>, table: string, hex: string,
                      change: RowChange):
      Result<Query<J>, ShellError>
  {
    match json(FilterText(hex))
    case None => Err(InvalidArgument)
    case Some(filter) =>
      if change.DeleteRow? then Ok(Query(table, [Call("deleteOne", [filter])]))
      else
        match json(Render(Strict(SetTree(parse, ChangedPairs(change)))))
        case None => Err(InvalidArgument)
        case Some(update) => Ok(Query(table, [Call("updateOne", [filter, update])]))
  }

  lemma IdIsRead<J>(json: string -> Option<J>, parse: string -> Option<Json>, table: string, hex: string,
                    change: RowChange)
    requires IsHexText(hex)
    ensures ReadTreeQuery(json, EditTree(parse, IdEdit(table, hex, change))) == IdQuery(json, parse, table, hex, change)
  {
    hide PairsTree, Strict, Render, FilterText, SetTree, IsHexText, ReadTrees, ReadTreeQuery;
    var q := EditTree(parse, IdEdit(table, hex, change));
    var args := q.calls[0].args;
    IdFilter(parse, hex);
    MethodTrimmed(change);
    ReadSingleCall(json, q);
    if change.DeleteRow? {
      OneArgument(json, args[0]);
    } else {
      TwoArguments(json, args[0], args[1]);
    }
  }

  /** A shown id survives the row edit: the command for its row parses to one `deleteOne` or `updateOne`
      on the table whose filter is that id again, whenever the edit is found as written. */
  lemma IdSurvives<J>(u: Unicode, json: string -> Option<J>, parse: string -> Option<Json>, table: string,
                      hex: string, change: RowChange)
    requires Coherent(u) && ReadsJson(u, parse) && IsHexText(hex) && GoodPairs(ChangedPairs(change))
    ensures var edit := IdEdit(table, hex, change);
      FoundAsWritten(parse, edit) ==>
        ParseQuery(Reader(u, json), EditCommand(parse, edit)) == IdQuery(json, parse, table, hex, change)
  {
    hide ParseQuery, Reader, EditCommand, ReadsJson, FoundAsWritten, Coherent, GoodPair, IdQuery, ReadTreeQuery,
         EditTree, IsHexText, GoodFields, WholePairs;
    var edit := IdEdit(table, hex, change);
    ShownIdTree(parse, hex);
    FieldsAndValues(edit.key);
    FieldsAndValues(ChangedPairs(change));
    if FoundAsWritten(parse, edit) {
      EditRoundTrip(u, json, parse, edit);
      IdIsRead(json, parse, table, hex, change);
    }
  }

  /** Among the tables without quotes, a delete by a shown id is found as written for exactly those that have
      no dot, no comment opener and no `getCollection(` head. */
  lemma IdDeletes(u: Unicode, parse: string -> Option<Json>, table: string, hex: string)
    requires Coherent(u) && ReadsJson(u, parse) && IsHexText(hex) && QuoteFree(table)
    ensures FoundAsWritten(parse, IdEdit(table, hex, DeleteRow)) <==> PlainName(table) && !OpensComment(table)
  {
    hide ReadsJson, FoundAsWritten, Coherent, GoodPair, IsHexText, GoodFields, WholePairs, QuoteFree, OpensComment;
    var edit := IdEdit(table, hex, DeleteRow);
    ShownIdTree(parse, hex);
    FieldsAndValues(edit.key);
    FieldsAndValues([]);
    ShownIdCloses(hex);
    TableDecides(u, parse, edit);
  }

  lemma ShownIdCloses(hex: string)
    requires IsHexText(hex)
    ensures ClosedValue(ShownId(hex))
  {
    hide Trim, LeavesOpen, LooksLikeCall;
    ShownIdParts(hex);
    PlainCloses('"', hex);
  }
}
