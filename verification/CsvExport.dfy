/** CSV export of a result table, and a reader for what it writes. */
module CsvExport {
  import opened Text

  datatype QueryResult =
    | Table(columns: seq<string>, rows: seq<seq<string>>, truncated: bool)
    | Documents(items: seq<string>, truncated: bool)
    | Affected(rowCount: nat)

  datatype ExportError = NeedsTable | NothingToExport

  predicate NeedsQuotes(field: string) {
    ',' in field || '"' in field || '\n' in field || '\r' in field
  }

  function DoubleQuotes(s: string): string {
    if s == [] then "" else (if s[0] == '"' then "\"\"" else [s[0]]) + DoubleQuotes(s[1..])
  }

  function CsvField(field: string): string {
    if NeedsQuotes(field) then "\"" + DoubleQuotes(field) + "\"" else field
  }

  function CsvFields(fields: seq<string>): seq<string> {
    if fields == [] then [] else [CsvField(fields[0])] + CsvFields(fields[1..])
  }

  function CsvLine(fields: seq<string>): string {
    Join(CsvFields(fields), ",") + "\n"
  }

  function CsvLines(records: seq<seq<string>>): string {
    if records == [] then "" else CsvLine(records[0]) + CsvLines(records[1..])
  }

  method ToCsv(result: QueryResult) returns (r: Result<string, ExportError>)
    ensures r == match result
      case Table(columns, rows, _) => Ok(CsvLines([columns] + rows))
      case Documents(_, _) => Err(NeedsTable)
      case Affected(_) => Err(NothingToExport)
  {
    match result
    case Table(columns, rows, _) =>
      var out := CsvLine(columns);
      for i := 0 to |rows|
        invariant CsvLines([columns] + rows) == out + CsvLines(rows[i..])
      {
        assert rows[i..][1..] == rows[i + 1..];
        assert out + (CsvLine(rows[i]) + CsvLines(rows[i + 1..])) == out + CsvLine(rows[i]) + CsvLines(rows[i + 1..]);
        out := out + CsvLine(rows[i]);
      }
      assert out + "" == out;
      r := Ok(out);
    case Documents(_, _) => r := Err(NeedsTable);
    case Affected(_) => r := Err(NothingToExport);
  }

  // ----- a reader following section 2 of RFC 4180, with LF between records

  /** A quoted field after its opening quote: two quotes are one, a single one ends the field. */
  function ReadQuoted(s: string): Option<(string, string)> {
    if s == [] then None
    else if s[0] != '"' then Push(s[0], ReadQuoted(s[1..]))
    else if |s| > 1 && s[1] == '"' then Push('"', ReadQuoted(s[2..]))
    else Some(("", s[1..]))
  }

  /** A bare field: everything up to a comma or a line end, with no quote or carriage return in it. */
  function ReadBare(s: string): Option<(string, string)> {
    if s == [] || s[0] == ',' || s[0] == '\n' then Some(("", s))
    else if s[0] == '"' || s[0] == '\r' then None
    else Push(s[0], ReadBare(s[1..]))
  }

  function Push(c: char, r: Option<(string, string)>): Option<(string, string)> {
    if r.None? then None else Some(([c] + r.value.0, r.value.1))
  }

  /** A field stands in front of a comma, a line end or the end of the text. */
  function ReadField(s: string): Option<(string, string)> {
    var r := if s != [] && s[0] == '"' then ReadQuoted(s[1..]) else ReadBare(s);
    if r.Some? && (r.value.1 == [] || EndsField(r.value.1)) && |r.value.1| <= |s| then r else None
  }

  function ReadRecord(s: string): Option<(seq<string>, string)>
    decreases |s|
  {
    match ReadField(s)
    case None => None
    case Some((field, rest)) =>
      if rest == [] then Some(([field], rest))
      else if rest[0] == '\n' then Some(([field], rest[1..]))
      else
        var more := ReadRecord(rest[1..]);
        if more.None? then None else Some(([field] + more.value.0, more.value.1))
  }

  function ReadCsv(s: string): Option<seq<seq<string>>>
    decreases |s|
  {
    if s == [] then Some([])
    else
      match ReadRecord(s)
      case None => None
      case Some((record, rest)) =>
        if |rest| >= |s| then None
        else
          var more := ReadCsv(rest);
          if more.None? then None else Some([record] + more.value)
  }

  // ----- reading undoes writing

  predicate EndsField(rest: string) {
    rest != [] && (rest[0] == ',' || rest[0] == '\n')
  }

  lemma ReadQuote(more: string)
    ensures ReadQuoted("\"\"" + more) == Push('"', ReadQuoted(more))
  {
    assert ("\"\"" + more)[2..] == more;
  }

  lemma ReadOther(c: char, more: string)
    requires c != '"'
    ensures ReadQuoted([c] + more) == Push(c, ReadQuoted(more))
  {
    assert ([c] + more)[1..] == more;
  }

  lemma DoubledFirst(field: string, end: string)
    requires field != []
    ensures DoubleQuotes(field) + end
      == (if field[0] == '"' then "\"\"" else [field[0]]) + (DoubleQuotes(field[1..]) + end)
  {
  }

  lemma ReadClosing(rest: string)
    requires EndsField(rest)
    ensures ReadQuoted(DoubleQuotes("") + ("\"" + rest)) == Some(("", rest))
  {
    assert DoubleQuotes("") + ("\"" + rest) == "\"" + rest;
  }

  lemma {:induction false} ReadDoubled(field: string, rest: string)
    requires EndsField(rest)
    ensures ReadQuoted(DoubleQuotes(field) + ("\"" + rest)) == Some((field, rest))
  {
    hide ReadQuoted, DoubleQuotes, EndsField;
    if field == [] {
      ReadClosing(rest);
    } else {
      ReadDoubled(field[1..], rest);
      DoubledFirst(field, "\"" + rest);
      var more := DoubleQuotes(field[1..]) + ("\"" + rest);
      if field[0] == '"' {
        ReadQuote(more);
      } else {
        ReadOther(field[0], more);
      }
      assert [field[0]] + field[1..] == field;
    }
  }

  lemma {:induction false} ReadPlain(field: string, rest: string)
    requires !NeedsQuotes(field) && EndsField(rest)
    ensures ReadBare(field + rest) == Some((field, rest))
  {
    if field == [] {
      assert field + rest == rest;
    } else {
      assert field == [field[0]] + field[1..];
      ReadPlain(field[1..], rest);
      assert (field + rest)[1..] == field[1..] + rest;
    }
  }

  lemma QuotedField(field: string, rest: string)
    requires NeedsQuotes(field)
    ensures CsvField(field) + rest == "\"" + (DoubleQuotes(field) + ("\"" + rest))
  {
    hide DoubleQuotes, NeedsQuotes;
  }

  lemma ReadWritten(field: string, rest: string)
    requires EndsField(rest)
    ensures ReadField(CsvField(field) + rest) == Some((field, rest))
  {
    hide ReadField, ReadQuoted, ReadBare, DoubleQuotes, EndsField;
    if NeedsQuotes(field) {
      var body := DoubleQuotes(field) + ("\"" + rest);
      ReadDoubled(field, rest);
      QuotedField(field, rest);
      OpenQuote(body, field, rest);
    } else {
      ReadPlain(field, rest);
      NotQuoted(field, rest);
    }
  }

  lemma OpenQuote(body: string, field: string, rest: string)
    requires ReadQuoted(body) == Some((field, rest)) && EndsField(rest) && |rest| <= |body|
    ensures ReadField("\"" + body) == Some((field, rest))
  {
    assert ("\"" + body)[1..] == body;
  }

  lemma NotQuoted(field: string, rest: string)
    requires ReadBare(field + rest) == Some((field, rest)) && EndsField(rest) && '"' !in field
    ensures ReadField(field + rest) == Some((field, rest))
  {
    assert field != [] ==> (field + rest)[0] == field[0];
  }

  /** A record without fields is written as an empty line, which is one empty field. */
  function AsRead(record: seq<string>): seq<string> {
    if record == [] then [""] else record
  }

  lemma {:induction false} ReadLine(record: seq<string>, rest: string)
    ensures ReadRecord(CsvLine(record) + rest) == Some((AsRead(record), rest))
  {
    hide ReadField, ReadQuoted, ReadBare, DoubleQuotes;
    var tail := "\n" + rest;
    if |record| <= 1 {
      var field := if record == [] then "" else record[0];
      ReadWritten(field, tail);
      assert CsvLine(record) + rest == CsvField(field) + tail;
      assert record != [] ==> record == [field];
    } else {
      ReadLine(record[1..], rest);
      var more := CsvLine(record[1..]) + rest;
      ReadWritten(record[0], "," + more);
      FirstOfLine(record, rest);
      assert ("," + more)[1..] == more;
      assert record == [record[0]] + record[1..];
    }
  }

  lemma FirstOfLine(record: seq<string>, rest: string)
    requires |record| > 1
    ensures CsvLine(record) + rest == CsvField(record[0]) + ("," + (CsvLine(record[1..]) + rest))
  {
    assert CsvFields(record)[1..] == CsvFields(record[1..]);
    var a, b := CsvField(record[0]), Join(CsvFields(record[1..]), ",");
    assert a + "," + b + "\n" + rest == a + ("," + (b + "\n" + rest));
  }

  function AllAsRead(records: seq<seq<string>>): (r: seq<seq<string>>)
    ensures |r| == |records| && forall i | 0 <= i < |r| :: r[i] == AsRead(records[i])
  {
    seq(|records|, i requires 0 <= i < |records| => AsRead(records[i]))
  }

  lemma {:induction false} ReadLines(records: seq<seq<string>>)
    ensures ReadCsv(CsvLines(records)) == Some(AllAsRead(records))
  {
    if records != [] {
      ReadLine(records[0], CsvLines(records[1..]));
      ReadLines(records[1..]);
      assert AllAsRead(records) == [AsRead(records[0])] + AllAsRead(records[1..]);
    }
  }

  lemma SameAsRead(records: seq<seq<string>>)
    ensures AllAsRead(records) == records <==> forall i | 0 <= i < |records| :: records[i] != []
  {
    var r := AllAsRead(records);
    if r == records {
      assert forall i | 0 <= i < |records| :: r[i] == AsRead(records[i]);
    }
  }

  /** Reading an exported table gives back the header and every row exactly when the table has a
      column and no row is without fields. */
  lemma CsvRoundTrip(columns: seq<string>, rows: seq<seq<string>>)
    ensures ReadCsv(CsvLines([columns] + rows)) == Some([columns] + rows)
      <==> columns != [] && forall i | 0 <= i < |rows| :: rows[i] != []
  {
    hide ReadCsv, CsvLines, AllAsRead, AsRead;
    var records := [columns] + rows;
    ReadLines(records);
    SameAsRead(records);
    assert records[0] == columns && forall i | 0 <= i < |rows| :: records[i + 1] == rows[i];
  }

  /** A field is quoted only when it has to be: when it has a comma, a quote or a line break in it. */
  lemma WrittenBareIff(field: string)
    ensures CsvField(field) == field <==>
      forall i | 0 <= i < |field| :: field[i] != ',' && field[i] != '"' && field[i] != '\n' && field[i] != '\r'
  {
    if NeedsQuotes(field) {
      QuotesGrow(field);
      assert |CsvField(field)| > |field|;
    } else {
      assert forall i | 0 <= i < |field| :: field[i] in field;
    }
  }

  lemma {:induction false} QuotesGrow(s: string)
    ensures |DoubleQuotes(s)| >= |s|
  {
    if s != "" {
      QuotesGrow(s[1..]);
    }
  }

  /** Every quote in a quoted field is doubled, and nothing else changes. */
  lemma {:induction false} QuotesDouble(a: string, b: string)
    ensures DoubleQuotes(a + "\"" + b) == DoubleQuotes(a) + "\"\"" + DoubleQuotes(b)
    ensures '"' !in a ==> DoubleQuotes(a) == a
  {
    hide DoubleQuotes;
    DoubleFirst("\"", b);
    if a == "" {
      assert a + "\"" + b == "\"" + b && "\""[1..] + b == b;
      DoubleNothing();
      assert "" + "\"\"" + DoubleQuotes(b) == "\"\"" + DoubleQuotes(b);
    } else {
      QuotesDouble(a[1..], b);
      DoubleFirst(a, "\"" + b);
      DoubleFirst(a, "");
      assert a + "\"" + b == a + ("\"" + b) && a[1..] + "\"" + b == a[1..] + ("\"" + b);
      assert a + "" == a && a[1..] + "" == a[1..];
      assert a == [a[0]] + a[1..];
    }
  }

  lemma DoubleNothing()
    ensures DoubleQuotes("") == ""
  {
  }

  lemma DoubleFirst(a: string, rest: string)
    requires a != ""
    ensures DoubleQuotes(a + rest) == (if a[0] == '"' then "\"\"" else [a[0]]) + DoubleQuotes(a[1..] + rest)
  {
    assert (a + rest)[1..] == a[1..] + rest;
  }
}
