# Verified model of the tradar connectors

tradar is a terminal client for several databases. This project models the parts of it that carry
real algorithms and proves what they are for. There is one module for each part, in the program's own terms:

- **Numbers and dates of Cassandra rows** (`Decimal`, `Varint`, `CqlDecimal`, `Calendar`). A varint
  on the wire becomes its decimal text by in-place two's-complement negation, packing into 32-bit
  limbs and repeated division by a billion. A CQL decimal gets its point. Day numbers become
  calendar dates by a closed formula, which is checked against the plain leap-year rule.
- **The MongoDB shell** (`JsComments`, `Brackets`, `JsonSyntax`, `RelaxJson`, `RelaxMeaning`,
  `RelaxLaws`, `RelaxTree`, `JsonScan`, `ShellQuery`, `ShellRoundTrip`, `ShellTrees`, `ShellCommands`,
  `CleanLaws`). These are
  four scanners with state for quotes, escapes and depth: comment stripping, bracket matching,
  argument splitting, and relaxed JSON to strict JSON, with the call-chain parser on top. Relaxed
  JSON is given as syntax trees that keep every character. A tree has a text, a strict form in the
  grammar of RFC 8259, and a meaning.
- **Row edits in MongoDB** (`ExtJson`, `RowEdit`, `RowEditReading`, `RowEditLoop`, `RowEditLookalikes`).
  An id as the grid shows it is written back as a command, which is then parsed.
- **The Redis command line** (`RedisCommand`): the argument printer and the splitter that undo each other.
- **The multi-line editor** (`FlatText`, `TextArea`): a ragged list of lines with a row and a column,
  which refines one flat text with one offset.
- **Dotted paths** (`DottedPath`, `FieldTree`, `FieldTreeLeaves`, `MergeJson`): flattening a BSON
  document and building the insert tree; nesting a dotted column and merging partial documents.
- **The Postgres session** (`PostgresDriver`, `PostgresProtocol`). The shared fields and their
  methods, and a state machine over every interleaving of concurrent `execute` calls that run to
  completion. The lock, the pool and the server's answers are nondeterministic events.
- **Statements and output** (`Statements`, `CsvExport`, `CurlCommand`): cutting a console buffer into
  statements, and printing CSV and a shell command that readers of RFC 4180 and of POSIX read back.

Text is a sequence of Unicode scalar values and every position is a character position, where the
program sometimes counts bytes. What the program gets from elsewhere is a parameter: the JSON reader
(`json`, `parse`), the inference of a typed value (`infer`), the alphabetic and numeric character classes
(`Unicode`, required to be right on ASCII and to hold no whitespace), and the server's answers.

Loops and in-place updates of the program are methods with invariants. Each such method is proved
equal to a function, and the results below are about those functions. What a function does is also spelled out
in literal text (`CleanLaws`, `RelaxLaws` and the last part of several modules), so that every constant and
every branch is stated a second time, without the function's own parts.

## Where the code does less than its description

- The command of a row edit is not always parsed back to that edit. `EditRoundTripIff` is the exact
  condition: the edit is found as written, and each value that looks like a constructor call is one whole call.
  - Found as written means that the table has no dot and does not start with `getCollection(`, no comment is in
    the command, and the arguments close what they open (`EditParsesBackIff`). `edit_source` gives an
    edit the collection of a `getCollection("fs.files")` query, dots included, and the command then goes
    to a collection `fs` with a method `files.deleteOne`: `FilesTable` is the input, `DottedTable`
    says what happens for every such table. For ordinary values and tables without quotes, only the
    name decides (`TableDecides`).
  - A value is one whole call when it has two quotes and no closing parenthesis between them
    (`ValueReadIff`, from `CallBecomesIff`). `ISODate("a"), role: ISODate("b")` typed into one cell sets two
    columns (`CellSetsRole`; `CellIsReadAsTwo` for all such cells), and so does
    `ISODate("x" "), role: ISODate(" "y")`, whose brackets and strings match (`HiddenParenthesis`).
    `ISODate("a", b: "c")` stays one date (`CommaInCall`).
- A field name with a backslash or a control character has no key that denotes it: `KeyOfFieldIff`, and
  `BackslashInField` for `a\b`.
- The MongoDB call-chain parser does not give back every printed command. A collection name with `//`
  or `/*` in it (`a//b`) is cut by the comment stripper, one that starts with `getCollection(` is taken
  for that call, and space at the edges of a method name is trimmed. `RoundTripIff` says exactly when
  the round trip holds; `CommentInName`, `CallInName` and `SpaceInName` are inputs.
- A collection whose name begins like the call of a database method (`runCommand(..`) is never run as
  a query: `QueryIsCommand`, and `CommandInName` for `runCommand(x`.
- `to_curl` quotes the body and the headers but not the method. The shell sees what was asked for if
  and only if the method is a bare word: `CurlWordsIff`, and `SemicolonInMethod` for `A;B`.
- Flattening a document and building the insert tree from its columns gives the document's own tree
  exactly when no name has a dot, no sub-document is empty, and no document of the top level has the
  empty name: `FlattenThenBuildIff`.
- One dotted name that is a prefix of another one (`a`, `a.b`, `a.c`) makes the insert tree repeat
  a key. `UniqueKeysIff` is the exact condition and `SharedPrefixSplit` the input.
- `TextArea::new` drops a final newline and Windows line breaks. `LoadKeepsText` is the exact condition.
- An exported row without any field is read back as one empty field, which `CsvRoundTrip` states as its
  exact condition.
- Showing a shown Extended JSON value again changes it when one wrapper holds another one
  (`{"$oid": {"$oid": ..}}`): `SimplifySettlesIff` and `SimplifyTwice`.
- Tokens of tracked Postgres calls come from a 64-bit counter that wraps around, so "unique per call" is true
  as long as no call outlives 2^64 later ones. `FreshIff` states the condition, `FewCallsAreFresh`
  shows that it holds for any run with at most 2^64 calls.
- `find_matching_close_paren` only tells `)` from the other closing brackets: kinds are not matched
  against each other, and a stray `}` lowers the depth. `CloseIsFirst` describes what is found in every text.

## Model

| member | source | states |
|---|---|---|
| Varint.NegateInPlace | crates/tradar-connector-cassandra/src/values.rs:101-115 | Inverting and adding one in place leaves the big-endian magnitude of a negative number; the carry ends inside the array |
| Varint.PackLimbs | crates/tradar-connector-cassandra/src/values.rs:116-124 | The base-2^32 limbs have the value of the bytes, and each limb fits 32 bits |
| Varint.DivideByBillion | crates/tradar-connector-cassandra/src/values.rs:127-132 | One pass keeps old = new * 10^9 + remainder, and every quotient fits a limb |
| Varint.BillionGroups | crates/tradar-connector-cassandra/src/values.rs:125-134 | The loop ends, and the groups are the value in base 10^9 without a leading zero group |
| Varint.SignedBeToDecimal | crates/tradar-connector-cassandra/src/values.rs:97-149 | For every byte sequence the result is the canonical decimal text of its two's-complement value |
| Varint.SignedRange | crates/tradar-connector-cassandra/src/values.rs:97-101 | The reference value of n bytes lies in the range of an 8n-bit two's-complement number |
| Decimal.IntTextCanonical | crates/tradar-connector-cassandra/src/values.rs:135-149 | The decimal text has no leading zero, a minus sign only for negatives, and reads back as the number |
| Decimal.IntTextUnique | crates/tradar-connector-cassandra/src/values.rs:135-149 | A canonical text is the only one for its number |
| CqlDecimal.FormatDecimalExact | crates/tradar-connector-cassandra/src/values.rs:153-174 | For every canonical integer text and every scale the result denotes exactly unscaled * 10^(-scale) |
| CqlDecimal.PositiveScale | crates/tradar-connector-cassandra/src/values.rs:166-173 | With a positive scale there are exactly that many fraction digits and at least one integer digit |
| CqlDecimal.NonPositiveScale | crates/tradar-connector-cassandra/src/values.rs:158-165 | Without a fraction the result is the canonical text of the scaled integer, zero included |
| CqlDecimal.DisplayDecimal | crates/tradar-connector-cassandra/src/values.rs:25-28 | From wire bytes to screen: the number shown is the exact CQL decimal |
| Calendar.CivilFromDaysCorrect | crates/tradar-connector-cassandra/src/values.rs:178-189 | Every day number gives a valid proleptic Gregorian date, and counting years, leap days and months up to it gives the number back |
| Calendar.CivilFromDaysInverts | crates/tradar-connector-cassandra/src/values.rs:178-189 | Every valid date is what the closed form gives for its day count |
| Calendar.CivilFromDaysSuccessor | crates/tradar-connector-cassandra/src/values.rs:178-189 | Day n+1 is the calendar successor of day n |
| Calendar.EpochDay | crates/tradar-connector-cassandra/src/values.rs:178-189 | Day 0 is 1970-01-01 |
| Calendar.DaysFromCivilOrders | crates/tradar-connector-cassandra/src/values.rs:178-189 | The reference day count orders dates as the calendar does |
| Calendar.TimestampRoundTrip | crates/tradar-connector-cassandra/src/values.rs:192-203 | Reading a displayed timestamp gives back its millisecond, before and after the epoch; the reader refuses every text that is not of that form |
| JsComments.StripJsComments | crates/tradar-connector-mongo/src/shell.rs:51-96 | The scanner computes the token-wise stripped text |
| JsComments.StripIdempotent | crates/tradar-connector-mongo/src/shell.rs:51-96 | Stripped text has no comment left to strip |
| JsComments.StripKeepsLiterals | crates/tradar-connector-mongo/src/shell.rs:57-71 | Every string literal survives verbatim and in order |
| JsComments.StripKeepsLineBreaks | crates/tradar-connector-mongo/src/shell.rs:72-88 | The number of line breaks does not change |
| JsComments.StripKeepsMarks | crates/tradar-connector-mongo/src/shell.rs:51-96 | A reader sees the same literals and characters, and gaps where gaps and block comments were |
| JsComments.CleanCommand | crates/tradar-connector-mongo/src/shell.rs:100-105 | The method computes the cleaned command |
| CleanLaws.EndMakesNoDifference | crates/tradar-connector-mongo/src/shell.rs:98-105 | Semicolons and whitespace behind any text make no difference to its cleaned form, an open string or comment at its end included |
| CleanLaws.SemicolonMakesNoDifference | crates/tradar-connector-mongo/src/shell.rs:98-105 | So every command is read the same with a semicolon behind it |
| CleanLaws.CleanIs | crates/tradar-connector-mongo/src/shell.rs:100-105 | What is cleaned off is whitespace in front, whitespace and semicolons behind, and nothing else |
| CleanLaws.LineCommentGoes | crates/tradar-connector-mongo/src/shell.rs:72-76 | A line comment goes, up to its line break or the end |
| CleanLaws.BlockCommentGoes | crates/tradar-connector-mongo/src/shell.rs:77-88 | A block comment becomes its line breaks and one space |
| CleanLaws.OpenBlockGoes | crates/tradar-connector-mongo/src/shell.rs:77-88 | So does one that is never closed |
| CleanLaws.LiteralStays | crates/tradar-connector-mongo/src/shell.rs:57-71 | A string literal stays, whatever is in it |
| CleanLaws.OpenLiteralStays | crates/tradar-connector-mongo/src/shell.rs:57-71 | So does one that is never closed |
| CleanLaws.OtherStays | crates/tradar-connector-mongo/src/shell.rs:89-93 | Any other character stays |
| JsComments.CleanIdempotent | crates/tradar-connector-mongo/src/shell.rs:100-105 | Cleaning twice is cleaning once, and a cleaned command has no comment |
| JsComments.NoCommentsIff | crates/tradar-connector-mongo/src/shell.rs:51-96 | Text has no comment token if and only if the stripper leaves it as it is |
| ShellCommands.CleaningOnceIsEnough | crates/tradar-connector-mongo/src/shell.rs:141-211 | The three stages that clean again give the same result on text that is already clean |
| Brackets.FindMatchingCloseParen | crates/tradar-connector-mongo/src/relax.rs:8-32 | The result is the first unquoted closing parenthesis at depth zero, or none when there is none |
| Brackets.CloseIsFirst | crates/tradar-connector-mongo/src/relax.rs:8-32 | A position is found if and only if it is such a parenthesis and no earlier one is |
| Brackets.FoundIsNested | crates/tradar-connector-mongo/src/relax.rs:8-32 | What stands in front of the close that is found is well nested, strings closed |
| Brackets.CloseAfterNested | crates/tradar-connector-mongo/src/relax.rs:8-32 | After well-nested text the parenthesis written for it is the one found |
| Brackets.SplitTopLevelArgs | crates/tradar-connector-mongo/src/relax.rs:195-232 | The scanner computes the cut at top-level commas, with its empty and unbalanced cases |
| Brackets.ArgumentsJoin | crates/tradar-connector-mongo/src/relax.rs:195-232 | Joining the arguments with commas gives back the trimmed text, and text is refused exactly when its braces do not balance |
| Brackets.PiecesAreCutAtCommas | crates/tradar-connector-mongo/src/relax.rs:195-232 | No piece has a comma at its own level, and all but the last close what they open |
| Brackets.PiecesUndoJoin | crates/tradar-connector-mongo/src/relax.rs:195-232 | Cutting comma-joined arguments gives back the arguments |
| RelaxJson.CallArgumentAt | crates/tradar-connector-mongo/src/relax.rs:158-180 | The scanner finds the literal in a constructor's parentheses, or none |
| RelaxJson.RequoteSingle | crates/tradar-connector-mongo/src/relax.rs:73-102 | The loop over a single-quoted string gives the inside of its double-quoted form |
| RelaxJson.RelaxText | crates/tradar-connector-mongo/src/relax.rs:50-143 | The scanner computes the piece-wise relaxed text, looking back at what it has written |
| RelaxMeaning.CtorBecomes | crates/tradar-connector-mongo/src/relax.rs:149-187 | A constructor call with one plain literal becomes its Extended JSON, and NumberInt its number |
| RelaxMeaning.CallReadIff | crates/tradar-connector-mongo/src/relax.rs:149-187 | A call with a quoted argument is read as that constructor if and only if no closing parenthesis stands between the quotes |
| RelaxMeaning.CallBecomesIff | crates/tradar-connector-mongo/src/relax.rs:50-187 | A call of an Extended JSON constructor with a quoted argument becomes, in the relaxed text, what it stands for if and only if no closing parenthesis stands between its quotes |
| RelaxLaws.NumberLongBecomes | crates/tradar-connector-mongo/src/relax.rs:149-187 | `NumberLong(5)` becomes `{"$numberLong": "5"}`, for every numeral |
| RelaxLaws.NumberDecimalBecomes | crates/tradar-connector-mongo/src/relax.rs:149-187 | `NumberDecimal(5)` becomes `{"$numberDecimal": "5"}` |
| RelaxLaws.QuotedNumbersBecome | crates/tradar-connector-mongo/src/relax.rs:149-187 | The same for both with the number in quotes |
| RelaxLaws.ObjectIdBecomes | crates/tradar-connector-mongo/src/relax.rs:149-187 | `ObjectId("x")` becomes `{"$oid": "x"}`, in quotes of either kind |
| RelaxLaws.ISODateBecomes | crates/tradar-connector-mongo/src/relax.rs:149-187 | `ISODate("x")` becomes `{"$date": "x"}` |
| RelaxLaws.NumberIntBecomes | crates/tradar-connector-mongo/src/relax.rs:183-186 | `NumberInt(5)` becomes `5` |
| RelaxLaws.OtherNameStays | crates/tradar-connector-mongo/src/relax.rs:149-157 | Any other name in front of a parenthesis stays |
| RelaxLaws.BareNameStays | crates/tradar-connector-mongo/src/relax.rs:103-127 | So does a name without parentheses |
| RelaxLaws.OtherArgumentStays | crates/tradar-connector-mongo/src/relax.rs:158-180 | So does a constructor whose argument is neither a number nor in quotes |
| RelaxLaws.EscapesOf | crates/tradar-connector-mongo/src/relax.rs:183-186 | How each character of a constructor's text is written as JSON |
| RelaxLaws.EscapesMean | crates/tradar-connector-mongo/src/relax.rs:34-50 | What each escape of RFC 8259 section 7 means |
| RelaxMeaning.KeyBecomes | crates/tradar-connector-mongo/src/relax.rs:103-127 | A bare key after `{` or `,` and before `:` is quoted, a quoted key is requoted |
| RelaxMeaning.LiteralBecomes | crates/tradar-connector-mongo/src/relax.rs:57-102 | A string literal in either quotes becomes the same string in double quotes |
| RelaxTree.ValueBecomes | crates/tradar-connector-mongo/src/relax.rs:50-143 | In front of anything that may follow a value, the text of a tree becomes the text of its strict form |
| RelaxTree.RelaxGivesStrict | crates/tradar-connector-mongo/src/relax.rs:34-50 | Relaxing the text of any relaxed tree gives the text of its strict form |
| RelaxTree.StrictIsUnchanged | crates/tradar-connector-mongo/src/relax.rs:34-50 | Every text in the grammar of RFC 8259 section 2 passes through unchanged |
| JsonSyntax.StrictKeeps | crates/tradar-connector-mongo/src/relax.rs:34-50 | The strict form is in the grammar of RFC 8259 and denotes the same value |
| JsonScan.CalmValue | crates/tradar-connector-mongo/src/relax.rs:1-32 | No scanner finds a comment, an unmatched bracket or a bare comma in the text of a value |
| ShellQuery.ParseShellQuery | crates/tradar-connector-mongo/src/shell.rs:210-266 | The loops compute the parse, with every error case |
| ShellQuery.OneMoreCall | crates/tradar-connector-mongo/src/shell.rs:238-263 | One turn of the loop accounts for one call and leaves the rest |
| ShellRoundTrip.ParsePrinted | crates/tradar-connector-mongo/src/shell.rs:210-266 | Parsing a printed command gives its collection and its calls, without the space around names and arguments, or the error of the first argument that is not read |
| ShellRoundTrip.RoundTripIff | crates/tradar-connector-mongo/src/shell.rs:210-266 | For every query: the round trip holds if and only if the collection has no dot and does not start with `getCollection(`, there is a call, method names have no parenthesis and no space at their edges, nor have the argument lists, the arguments close what they open without a comma or closing parenthesis of their own, and no comment token is in the text |
| ShellRoundTrip.CommentInName | crates/tradar-connector-mongo/src/shell.rs:210-235 | A dot-free collection name for which it does not hold |
| ShellRoundTrip.CallInName | crates/tradar-connector-mongo/src/shell.rs:217-230 | A dot-free collection name that is taken for the call which names a collection |
| ShellRoundTrip.SpaceInName | crates/tradar-connector-mongo/src/shell.rs:238-246 | A method name that loses its space |
| ShellRoundTrip.QueryLength | crates/tradar-connector-mongo/src/shell.rs:210-266 | A command is at least as long as the printed form of what it parses to |
| ShellTrees.ParseUndoesPrinting | crates/tradar-connector-mongo/src/shell.rs:210-266 | For calls with relaxed JSON arguments that are found as printed, and space anywhere around them, the parser gives back collection, names and each argument's strict form as the JSON reader takes it |
| ShellTrees.ClosedIsGood | crates/tradar-connector-mongo/src/relax.rs:1-32 | Arguments whose literals close where their tree says are found as printed |
| ShellTrees.NamesDecide | crates/tradar-connector-mongo/src/shell.rs:51-105 | With names free of quotes, a typed command has a comment if and only if a slash followed by a slash or a star stands in a name |
| ShellCommands.ParseQuotedPrinted | crates/tradar-connector-mongo/src/shell.rs:217-230 | The same for a collection named in `getCollection`, with any characters but quotes and backslashes |
| ShellCommands.QueryIsCommand | crates/tradar-connector-mongo/src/shell.rs:159-208 | A printed query is run as that query, unless its collection begins like the call of a database method; then it never is |
| ShellCommands.CommandInName | crates/tradar-connector-mongo/src/shell.rs:186-205 | The collection name `runCommand(x` |
| ShellCommands.DbCallRoundTrip | crates/tradar-connector-mongo/src/shell.rs:186-205 | A printed call on the database is read back as that call |
| ShellCommands.DbMethodsAre | crates/tradar-connector-mongo/src/shell.rs:124-136 | The eight methods of the database |
| ShellCommands.OtherDbCall | crates/tradar-connector-mongo/src/shell.rs:186-208 | A call on the database of any other name is refused |
| ShellCommands.SiblingAims | crates/tradar-connector-mongo/src/shell.rs:141-157 | A command aimed at a sibling database, named in quotes of either kind or bare, is that database and the plain command |
| ShellCommands.SiblingQuery | crates/tradar-connector-mongo/src/shell.rs:141-211 | A printed query aimed at a sibling database is run there as that query |
| ShellCommands.UseIsRead | crates/tradar-connector-mongo/src/shell.rs:161-167 | `use name` names that database, in quotes of either kind or without |
| ShellCommands.ShowIsRead | crates/tradar-connector-mongo/src/shell.rs:168-179 | A whole `show` command is read as a command if and only if what follows `show`, trimmed, is one of that command's words |
| CleanLaws.BareHelpers | crates/tradar-connector-mongo/src/shell.rs:161-185 | `db` alone names the database; `show` alone is refused, and so is `use` alone, which is no helper |
| CleanLaws.EmptyUse | crates/tradar-connector-mongo/src/shell.rs:161-167 | `use` with nothing but quotes is refused |
| CleanLaws.OtherShow | crates/tradar-connector-mongo/src/shell.rs:168-179 | `show` with any other word is refused |
| CleanLaws.QueryRefused | crates/tradar-connector-mongo/src/shell.rs:211-235 | A query without `db.`, without a dot, or without a call is refused, each for its own reason |
| CleanLaws.CollectionRefused | crates/tradar-connector-mongo/src/shell.rs:217-230 | `getCollection` is refused for a missing end, an empty name, or anything but a dot behind it |
| CleanLaws.CallRefused | crates/tradar-connector-mongo/src/shell.rs:236-263 | A call is refused for a missing end, for braces that do not match, and for text behind it |
| ExtJson.SimplifyChangesWrappers | crates/tradar-connector-mongo/src/convert.rs:25-56 | A value is shown as it is if and only if it has no id or date wrapper in it |
| ExtJson.SimplifySettlesIff | crates/tradar-connector-mongo/src/convert.rs:25-56 | Showing twice is showing once if and only if no wrapper holds another one |
| ExtJson.WrappersShown | crates/tradar-connector-mongo/src/convert.rs:27-40 | The literal texts of an id and a date |
| ExtJson.OthersKeepShape | crates/tradar-connector-mongo/src/convert.rs:41-55 | Any other object keeps its keys in order and shows each value in its place, and a list each element |
| RowEdit.KeyOfFieldIff | crates/tradar-connector-mongo/src/snippets.rs:6-19 | A field name is written as a key that denotes it if and only if it has no backslash and no control character |
| RowEdit.FieldWritten | crates/tradar-connector-mongo/src/snippets.rs:6-19 | A field name is written bare if and only if it is an ASCII identifier, and in quotes otherwise |
| RowEdit.BackslashInField | crates/tradar-connector-mongo/src/snippets.rs:6-19 | No key written for `a\b` denotes it |
| RowEditReading.TypedValueDenotes | crates/tradar-connector-mongo/src/snippets.rs:163-175 | A typed value that is no constructor call or a whole one is the text of a well-formed literal whose strict form denotes that constructor's wrapper, or what the JSON reader makes of it, or else the string of its own characters |
| RowEditReading.TypedTexts | crates/tradar-connector-mongo/src/snippets.rs:163-175 | What a typed text means: a whole constructor call, a JSON text, or its own characters |
| RowEditReading.TypedWritten | crates/tradar-connector-mongo/src/snippets.rs:163-175 | How it is written: a call and a JSON text as typed, anything else in quotes |
| RowEditReading.ValueReadIff | crates/tradar-connector-mongo/src/snippets.rs:163-175 | In front of anything that may follow a value, the relaxed text of a typed value is what it stands for if and only if, where it looks like a constructor call, it is one whole call |
| RowEditReading.PairsReadIff | crates/tradar-connector-mongo/src/snippets.rs:130-143 | The relaxed text of a filter is what it stands for if and only if each of its values is whole |
| RowEditReading.SetReadIff | crates/tradar-connector-mongo/src/driver.rs:354-371 | The same for the change of an update |
| RowEdit.SetDenotes | crates/tradar-connector-mongo/src/driver.rs:354-371 | The change denotes `$set` of exactly the edited columns, in order, each with its value |
| RowEditLoop.EditParsesBackIff | crates/tradar-connector-mongo/src/driver.rs:350-376 | For every edit, the command parses back to table, method and literals if and only if the table has no dot and does not start with `getCollection(`, no comment is in the command, and the literals close what they open |
| RowEditLoop.EditRoundTripIff | crates/tradar-connector-mongo/src/driver.rs:350-376 | The command parses to the edit's table, method, filter and change as what they stand for if and only if it is found as written and each value that looks like a constructor call is one whole call |
| RowEditLoop.EditRoundTrip | crates/tradar-connector-mongo/src/driver.rs:350-376 | Such an edit parses to its table, its method and its arguments, each as the JSON reader takes the strict form of its tree |
| RowEditLoop.TableDecides | crates/tradar-connector-mongo/src/driver.rs:350-376 | With whole and closed values and a table without quotes, an edit is found as written if and only if the table has no dot, no `getCollection(` head and no `//` or `/*` |
| RowEditLoop.DottedTable | crates/tradar-connector-mongo/src/driver.rs:350-376 | For a table with a dot the command is read as a call on the part in front of it |
| RowEditLoop.FilesTable | crates/tradar-connector-mongo/src/driver.rs:319-376 | The delete for a row of `fs.files` is read as `files.deleteOne` of `fs` |
| RowEditLoop.IdIsShown | crates/tradar-connector-mongo/src/convert.rs:25-43 | What the grid shows for an id |
| RowEditLoop.IdSurvives | crates/tradar-connector-mongo/src/driver.rs:350-376 | The command for the row of a shown id, when it is found as written, parses to one `deleteOne` or `updateOne` on its table whose filter is that id again |
| RowEditLoop.IdDeletes | crates/tradar-connector-mongo/src/driver.rs:350-376 | A delete by a shown id is found as written for exactly the tables of `TableDecides` |
| RowEditLookalikes.CellSetsTwo | crates/tradar-connector-mongo/src/driver.rs:350-376 | For any two columns and any two call-like values, one cell makes the command that sets both |
| RowEditLookalikes.CellSetsRole | crates/tradar-connector-mongo/src/driver.rs:350-376 | Editing `name` to a text of that form sets `name` and `role` |
| RowEditLookalikes.CellIsReadAsTwo | crates/tradar-connector-mongo/src/driver.rs:350-376 | When the two are whole calls, that command is read as the edit of two columns and not as the one asked for |
| RowEditLookalikes.HiddenParenthesis | crates/tradar-connector-mongo/src/relax.rs:149-187 | A value with matching brackets and strings that sets two columns |
| RowEditLookalikes.CommaInCall | crates/tradar-connector-mongo/src/relax.rs:149-187 | A value with a comma outside its strings that stays one date |
| RedisCommand.SplitCommand | crates/tradar-connector-redis/src/command.rs:9-83 | The scanner computes the arguments, or the error for an unclosed quote or text after one |
| RedisCommand.BlankIsSkipped | crates/tradar-connector-redis/src/command.rs:19-23 | Whitespace between arguments means nothing, and no text has no arguments |
| Text.WhitespaceIs | crates/tradar-connector-redis/src/command.rs:20-23 | The 25 characters that count as whitespace |
| RedisCommand.BareIsItself | crates/tradar-connector-redis/src/command.rs:68-72 | A token that does not start with a quote stands for itself, quotes in it included (`it's`) |
| RedisCommand.OrdinaryIsItself | crates/tradar-connector-redis/src/command.rs:60-62 | In either quotes a character that is neither that quote nor a backslash stands for itself |
| RedisCommand.DoubleEscape | crates/tradar-connector-redis/src/command.rs:41-57 | The escapes of control characters in double quotes; any other character stands for itself |
| RedisCommand.HexEscape | crates/tradar-connector-redis/src/command.rs:48-54 | `\xHH` is the character of that code, in digits of either case |
| RedisCommand.LoneX | crates/tradar-connector-redis/src/command.rs:48-55 | `\x` in front of anything else is an `x` |
| RedisCommand.SingleEscape | crates/tradar-connector-redis/src/command.rs:32-40 | In single quotes only the single quote can be escaped |
| RedisCommand.ReadSingleIff | crates/tradar-connector-redis/src/command.rs:32-40 | A text in single quotes, its own ones escaped, is read as itself if and only if, paired off from the left, no backslash stands in front of a single quote or at the end |
| RedisCommand.SingleQuotedIsItself | crates/tradar-connector-redis/src/command.rs:19-67 | Then it is one argument, itself, in front of a space or the end |
| RedisCommand.PlainQuotedIsItself | crates/tradar-connector-redis/src/command.rs:19-67 | So is any text without quotes and backslashes, in quotes of either kind |
| RedisCommand.UnterminatedIff | crates/tradar-connector-redis/src/command.rs:63-65 | A quoted token has no end if and only if no quote closes it; then the line is refused for that quote |
| RedisCommand.ClosedToken | crates/tradar-connector-redis/src/command.rs:24-29 | A closed token is refused if and only if text follows it at once |
| RedisCommand.QuoteArg | crates/tradar-connector-redis/src/command.rs:88-109 | The loop computes the quoted argument |
| RedisCommand.WrittenBareIff | crates/tradar-connector-redis/src/command.rs:88-96 | An argument is written bare if and only if it is not empty and has no whitespace, quote or backslash |
| RedisCommand.WrittenOnOneLine | crates/tradar-connector-redis/src/command.rs:97-109 | No line break, carriage return or tab is written as it is |
| RedisCommand.ReadArgument | crates/tradar-connector-redis/src/command.rs:88-109 | A quoted argument is read back whatever follows it |
| RedisCommand.SplitUndoesQuoting | crates/tradar-connector-redis/src/command.rs:9-109 | Splitting the space-joined quoted arguments gives back exactly the list |
| TextArea.TextArea.constructor | crates/tradar-core/src/ui.rs:584-596 | The box shows the loaded lines with the cursor at the end |
| TextArea.TextArea.SetText | crates/tradar-core/src/ui.rs:606-608 | Setting a text shows it as a new box would |
| TextArea.TextArea.InsertStr | crates/tradar-core/src/ui.rs:614-630 | Pasting inserts the text without carriage returns at the offset |
| TextArea.ReturnsGo | crates/tradar-core/src/ui.rs:614-630 | Exactly the carriage returns are left out |
| TextArea.TextArea.HandleKeyEvent | crates/tradar-core/src/ui.rs:638-722 | Every key does to the box what it does to the flat text with its offset |
| FlatText.HomeStaysInLine | crates/tradar-core/src/ui.rs:712-715 | Home goes back to the last newline, or to the start, and no further |
| FlatText.EndStaysInLine | crates/tradar-core/src/ui.rs:716-719 | End goes on to the next newline, or to the end, and no further |
| FlatText.LeftAndRight | crates/tradar-core/src/ui.rs:680-697 | Left and Right are one step each and undo each other away from the edges |
| FlatText.UpKeepsColumn | crates/tradar-core/src/ui.rs:698-704 | Up keeps the column as far as the line above reaches |
| FlatText.DownKeepsColumn | crates/tradar-core/src/ui.rs:705-711 | Down keeps it as far as the line below reaches |
| FlatText.ChordsTypeNothing | crates/tradar-core/src/ui.rs:644-656 | A character with Control or Alt changes nothing; without, it is inserted, and Enter inserts a newline |
| TextArea.HomeAndEnd | crates/tradar-core/src/ui.rs:712-719 | Home and End in rows and columns |
| TextArea.LayoutUnique | crates/tradar-core/src/ui.rs:577-582 | Text and offset determine lines, row and column, so the flat view decides all later keys |
| TextArea.LoadKeepsText | crates/tradar-core/src/ui.rs:584-596 | Loading keeps the text if and only if it has no Windows line break and no final newline |
| TextArea.LinesAre | crates/tradar-core/src/ui.rs:584-596 | The rules that give the lines of any text: line breaks of either kind end a line, and the last one needs none |
| TextArea.TextInput.HandleKeyEvent | crates/tradar-core/src/ui.rs:493-539 | Every key does to the one-line box what it does to a flat text without line keys, whatever text the box was made from |
| TextArea.FieldIsOneLine | crates/tradar-core/src/ui.rs:458-539 | On a text without newlines that is what the big box does |
| TextArea.FieldEdges | crates/tradar-core/src/ui.rs:508-536 | Home and End of the field go to the edges of the whole text |
| TextArea.BreaksGo | crates/tradar-core/src/ui.rs:476-484 | What is pasted into it loses exactly its line breaks and carriage returns |
| FlatText.TypingIsPasting | crates/tradar-core/src/ui.rs:614-722 | Typing a text key by key is inserting it |
| FlatText.BackspaceUndoesInsert | crates/tradar-core/src/ui.rs:638-722 | As many backspaces as characters undo an insertion |
| FlatText.DeleteIsRightBackspace | crates/tradar-core/src/ui.rs:638-722 | Delete is a step to the right and a backspace |
| FieldTree.FlattenDocument | crates/tradar-connector-mongo/src/convert.rs:99-119 | The recursive loop appends the document's columns in order |
| FieldTree.FlattenGivesScalars | crates/tradar-connector-mongo/src/convert.rs:99-119 | A column for each scalar, in order, with its dotted path and its type, primary key if and only if its own name is `_id` |
| FieldTree.InsertFieldPath | crates/tradar-connector-mongo/src/snippets.rs:35-57 | The method computes the tree with one more path |
| FieldTree.BuildTree | crates/tradar-connector-mongo/src/snippets.rs:70-74 | The loop builds the tree of all paths, inserted in order |
| FieldTree.FlattenThenBuildIff | crates/tradar-connector-mongo/src/snippets.rs:70-76 | Inserting a document's flattened paths in order rebuilds the same ordered tree if and only if no name has a dot, no sub-document is empty and no document of the top level has the empty name |
| FieldTreeLeaves.InsertAddsOneLeaf | crates/tradar-connector-mongo/src/snippets.rs:35-57 | An insertion adds exactly one leaf, at the path its name spells |
| FieldTreeLeaves.LeavesAreInput | crates/tradar-connector-mongo/src/snippets.rs:70-76 | For any list of names the leaves are exactly the input, each at its own path |
| FieldTreeLeaves.UniqueKeysIff | crates/tradar-connector-mongo/src/snippets.rs:59-76 | No key is written twice if and only if no name is another one or continues it after a dot |
| DottedPath.LeadsToIff | crates/tradar-connector-mongo/src/snippets.rs:35-57 | The path of one name begins the path of another if and only if they are the same name or the other one continues it after a dot |
| FieldTreeLeaves.SharedPrefixSplit | crates/tradar-connector-mongo/src/snippets.rs:46-54 | Three names for which a key is written three times |
| MergeJson.MergeInto | crates/tradar-connector-elasticsearch/src/edit.rs:19-33 | The recursive loop over keys computes the merged document |
| MergeJson.WrapIsNest | crates/tradar-connector-elasticsearch/src/edit.rs:35-41 | The fold from the last key outwards nests the value at its path |
| MergeJson.LookupPut | crates/tradar-connector-elasticsearch/src/edit.rs:19-41 | After a merge the path holds its value, and a path apart from it is untouched |
| MergeJson.PutsCommute | crates/tradar-connector-elasticsearch/src/edit.rs:19-41 | Merges at paths apart from each other can be swapped |
| MergeJson.NothingElse | crates/tradar-connector-elasticsearch/src/lib.rs:306-312 | Every path in the document leads to a column or below one |
| MergeJson.PartialDocument | crates/tradar-connector-elasticsearch/src/lib.rs:306-312 | The loop over the edited columns computes the folded document |
| MergeJson.PartialDocumentCorrect | crates/tradar-connector-elasticsearch/src/lib.rs:306-312 | Each column holds its value, nothing else is in the document, and the order of the columns does not matter |
| PostgresDriver.PostgresDriver.StartTracking | crates/tradar-connector-postgres/src/lib.rs:62-73 | A call takes the next token, and `current` becomes that token with its pid as soon as the pid is known |
| PostgresDriver.PostgresDriver.StopTracking | crates/tradar-connector-postgres/src/lib.rs:90-94 | Cleanup removes the entry only when the token is its own |
| PostgresDriver.PostgresDriver.HandleTransactionControl | crates/tradar-connector-postgres/src/lib.rs:106-133 | What one control call leaves of the transaction and its flag, in each case of Ok and failure |
| PostgresProtocol.CurrentNamesOneCall | crates/tradar-connector-postgres/src/lib.rs:31-40 | In every interleaving the entry names one live call, its token and its own pid, and no call live means no entry |
| PostgresProtocol.CancelHitsLiveCall | crates/tradar-connector-postgres/src/lib.rs:453-463 | In every interleaving, fresh tokens or not, a cancel aims at the backend of one running call and of no other, and with none running at nothing |
| PostgresProtocol.PublishedIsTarget | crates/tradar-connector-postgres/src/lib.rs:67-72 | When its pid arrives a call becomes the target of a cancel, whatever was before |
| PostgresProtocol.LastPublishedIsTarget | crates/tradar-connector-postgres/src/lib.rs:62-94 | In every run with fresh tokens, the call whose pid arrived last, while it runs, is the target of a cancel |
| PostgresProtocol.StatementRuns | crates/tradar-connector-postgres/src/lib.rs:430-451 | From every idle state a statement can run to its end on any free connection; while it runs it is the target of a cancel, and then all is as before but for the token |
| PostgresProtocol.StatementRunsInTransaction | crates/tradar-connector-postgres/src/lib.rs:443-447 | The same on the connection of a held transaction, with the lock held meanwhile |
| PostgresProtocol.StatementFails | crates/tradar-connector-postgres/src/lib.rs:62-94 | Without a connection a statement is over; without a pid it still runs, as no target of a cancel |
| PostgresProtocol.ControlRuns | crates/tradar-connector-postgres/src/lib.rs:106-133 | A control call can be submitted at any time and gets the lock when it is free |
| PostgresProtocol.QueryEnters | crates/tradar-connector-postgres/src/lib.rs:443-451 | A statement runs on the held transaction if there is one, and asks the pool otherwise |
| PostgresProtocol.StatementsOnTransaction | crates/tradar-connector-postgres/src/lib.rs:443-447 | In every run, exactly the statement that holds the lock is on the held transaction |
| PostgresProtocol.OkControlLeaves | crates/tradar-connector-postgres/src/lib.rs:106-133 | In every run, a `BEGIN` that returned Ok leaves a transaction, and a `COMMIT` or `ROLLBACK` that returned Ok leaves none |
| PostgresProtocol.CancelTargetStays | crates/tradar-connector-postgres/src/lib.rs:62-94 | A published call stays the target through every step but its own end or another publication |
| PostgresProtocol.CleanupIsOwn | crates/tradar-connector-postgres/src/lib.rs:90-94 | A finishing call never removes another call's entry |
| PostgresProtocol.FreshIff | crates/tradar-connector-postgres/src/lib.rs:38-40 | Live calls keep different tokens all along if and only if each takes one that no live call holds |
| PostgresProtocol.FewCallsAreFresh | crates/tradar-connector-postgres/src/lib.rs:38-40 | That is so in every run with at most 2^64 tracked calls |
| PostgresProtocol.ShortRunsAreFresh | crates/tradar-connector-postgres/src/lib.rs:38-40 | In particular from the start |
| PostgresProtocol.OwnerDecides | crates/tradar-connector-postgres/src/lib.rs:106-133 | Only the owner of the lock changes the transaction and its flag |
| PostgresProtocol.FlagMirrorsTransaction | crates/tradar-connector-postgres/src/lib.rs:106-133 | Whenever no control call is under way, a statement on the held transaction included, a held transaction implies the flag, and they differ exactly after a failed close until the next Ok |
| PostgresProtocol.ControlStepsAddUp | crates/tradar-connector-postgres/src/lib.rs:430-451 | The interruptible steps of one control call add up to the method on the fields |
| Statements.SplitMongo | crates/tradar-connector-mongo/src/driver.rs:103-127 | Spans are in order and disjoint, each is its slice, all outside is whitespace, and they open exactly at the statement starts |
| Statements.SplitElasticsearch | crates/tradar-connector-elasticsearch/src/lib.rs:143-167 | The same for requests |
| Statements.DivisionUnique | crates/tradar-connector-mongo/src/driver.rs:103-127 | Only one division of a buffer has these properties |
| Statements.StatementStarts | crates/tradar-connector-mongo/src/driver.rs:103-127 | Where a line begins its text a statement starts if and only if the line is a statement start or the first that is not blank, and statements start nowhere else |
| Statements.MongoStarts | crates/tradar-connector-mongo/src/shell.rs:34-46 | Which lines are statement starts in the MongoDB console |
| Statements.RequestStarts | crates/tradar-connector-elasticsearch/src/request.rs:132-144 | Which lines are in the Elasticsearch console: a verb in any case, whitespace, and something more |
| Statements.BlankStartsNothing | crates/tradar-connector-elasticsearch/src/request.rs:134-138 | A blank line is none |
| CsvExport.ToCsv | crates/tradar-query-workbench/src/export.rs:11-26 | The loop writes the header and every row, and other results are refused |
| CsvExport.WrittenBareIff | crates/tradar-query-workbench/src/export.rs:81-87 | A field is quoted if and only if it has a comma, a quote or a line break in it |
| CsvExport.QuotesDouble | crates/tradar-query-workbench/src/export.rs:81-87 | Exactly the quotes in it are doubled |
| CsvExport.CsvRoundTrip | crates/tradar-query-workbench/src/export.rs:75-87 | A reader of RFC 4180 section 2 gets back header and rows if and only if none of them is empty |
| CurlCommand.QuotedIsOneWord | crates/tradar-connector-elasticsearch/src/request.rs:113-115 | For every text, its single-quoted escape is read by POSIX quoting rules as one word equal to it |
| CurlCommand.CurlWordsIff | crates/tradar-connector-elasticsearch/src/request.rs:117-130 | The shell sees `curl`, the method, the URL and the body that were asked for if and only if the method is a bare word |
| CurlCommand.CurlReadsIff | crates/tradar-connector-elasticsearch/src/request.rs:117-130 | The shell sees `curl -X`, the method, base and path with one slash between them, and the body behind its header, unchanged, if and only if the method is a bare word |
| CurlCommand.SemicolonInMethod | crates/tradar-connector-elasticsearch/src/request.rs:117-130 | The method `A;B`, for which it does not |

## Left out

- Network, database drivers, connecting, schema queries: their outcome is an event or a parameter where a state machine needs it.
- Screens, drawing, key maps, mouse, cheat sheets and keyword lists: data or plumbing.
- `serde_json` parsing and `es_infer_value`: parameters; the meaning of a number is its digits, and of a `\u` escape its code unit.
- `parse_query` and `strip_comments` of the Elasticsearch connector: `CurlCommand.ToCurl` starts from their result.
- `to_json`, the export as JSON: it hands the rows to `serde_json`.
- `render_insert_group` and `render_insert_node`: the text of the insert snippet, indentation only.
- The functions of `tradar_query` (`split_sql_statements`, `transaction_control`, `build_sql_edit`) are not part of this model; which statement is a control statement is given.
- Dropped futures of the Postgres connector, and the moment between reading a pid and the server acting on a cancel request.
- ExtJson.Simplify: models the value before and after; the program rewrites the tree in place. Aliasing plays no role because the tree is owned.
- MergeJson.MergeInto: documents are values that the method rebuilds; the program updates the target through a mutable reference. The order of keys in an object is not modelled.
- FieldTree.InsertFieldPath: the vector of roots is a sequence that the method rebuilds; the program pushes into it in place.
- RowEditLoop.EditRoundTripIff: for edits whose field names have a key that denotes them, which `KeyOfFieldIff` decides.
- FieldTree.FlattenThenBuildIff: a document has each name once per level, as a BSON document does.
- RelaxTree.RelaxGivesStrict: between tokens the four whitespace characters of JSON; other Unicode whitespace is copied by the program and is not JSON afterwards either.
- TextArea.TextArea.HandleKeyEvent: a typed character is not a newline; Enter is its own key.
- Calendar.CivilFromDaysCorrect: integers are unbounded. Day numbers come from 32-bit dates or 64-bit milliseconds, for which no intermediate result leaves 64 bits.
- PostgresProtocol.CurrentNamesOneCall: under the condition of `FreshIff` on tokens, and with connections that the pool does not hand out twice.
