/** JSON as people type it into a shell, as syntax trees that keep every character: unquoted keys,
    single-quoted strings, trailing commas and shell constructors on top of the grammar of RFC 8259,
    section 2. A tree has a text, a strict form and a meaning. */
module JsonSyntax {
  import opened Text
  import JsComments

  /** The host language's character classes beyond ASCII are a parameter. */
  datatype Unicode = Unicode(alphabetic: char -> bool, numeric: char -> bool)

  predicate IsLetter(c: char) {
    'a' <= c <= 'z' || 'A' <= c <= 'Z'
  }

  /** Among the ASCII characters the classes are the letters and the digits, and no whitespace is in
      either class. */
  ghost predicate Coherent(u: Unicode) {
    && (forall c: char | c < '\U{0080}' :: u.alphabetic(c) == IsLetter(c) && u.numeric(c) == IsDigit(c))
    && (forall c: char | IsWhitespace(c) :: !u.alphabetic(c) && !u.numeric(c))
  }

  predicate StartsWord(u: Unicode, c: char) {
    u.alphabetic(c) || c == '_' || c == '$'
  }

  predicate InWord(u: Unicode, c: char) {
    u.alphabetic(c) || u.numeric(c) || c == '_' || c == '$'
  }

  // ----- the trees

  /** One element of a string literal: a character, a backslash and a letter, or a backslash, `u`
      and four hexadecimal digits. */
  datatype Unit = Chr(c: char) | Esc(letter: char) | Uni(hex: string)

  datatype Lit = Lit(quote: char, units: seq<Unit>)

  datatype Key = Bare(name: string) | Named(lit: Lit)

  datatype CtorArg = QuotedArg(quote: char, body: string) | BareArg(number: string)

  datatype Json =
    | Str(lit: Lit)
    | Word(word: string)
    | Num(number: string)
    | Arr(items: Items)
    | Obj(members: Members)
    | Ctor(name: string, gap: string, before: string, arg: CtorArg, after: string)

  /** `Item` with no items after its comma is a trailing comma. */
  datatype Items =
    | NoItems(space: string)
    | LastItem(before: string, value: Json, after: string)
    | Item(before: string, value: Json, after: string, rest: Items)

  datatype Member = Member(before: string, key: Key, colon: string, gap: string, value: Json, after: string)

  datatype Members =
    | NoMembers(space: string)
    | LastMember(member: Member)
    | MoreMembers(member: Member, rest: Members)

  // ----- their text

  function UnitText(u: Unit): string {
    match u
    case Chr(c) => [c]
    case Esc(letter) => ['\\', letter]
    case Uni(hex) => "\\u" + hex
  }

  function UnitsText(units: seq<Unit>): string {
    if units == [] then "" else UnitText(units[0]) + UnitsText(units[1..])
  }

  function LitText(lit: Lit): string {
    [lit.quote] + UnitsText(lit.units) + [lit.quote]
  }

  function KeyText(key: Key): string {
    match key
    case Bare(name) => name
    case Named(lit) => LitText(lit)
  }

  function ArgText(arg: CtorArg): string {
    match arg
    case QuotedArg(quote, body) => [quote] + body + [quote]
    case BareArg(number) => number
  }

  function Render(v: Json): string {
    match v
    case Str(lit) => LitText(lit)
    case Word(word) => word
    case Num(number) => number
    case Arr(items) => "[" + (RenderItems(items) + "]")
    case Obj(members) => "{" + (RenderMembers(members) + "}")
    case Ctor(name, gap, before, arg, after) => name + (gap + ("(" + (before + ArgText(arg) + after + ")")))
  }

  function RenderItems(items: Items): string {
    match items
    case NoItems(space) => space
    case LastItem(before, value, after) => before + (Render(value) + after)
    case Item(before, value, after, rest) => before + (Render(value) + (after + ("," + RenderItems(rest))))
  }

  function RenderMember(m: Member): string {
    m.before + (KeyText(m.key) + (m.colon + (":" + (m.gap + (Render(m.value) + m.after)))))
  }

  function RenderMembers(members: Members): string {
    match members
    case NoMembers(space) => space
    case LastMember(member) => RenderMember(member)
    case MoreMembers(member, rest) => RenderMember(member) + ("," + RenderMembers(rest))
  }

  // ----- which trees are well formed

  /** The whitespace of RFC 8259, section 2. */
  predicate IsSpace(s: string) {
    forall i | 0 <= i < |s| :: s[i] == ' ' || s[i] == '\t' || s[i] == '\n' || s[i] == '\r'
  }

  /** RFC 8259, section 7; between single quotes also an escaped single quote, and a double quote as
      it is. */
  predicate ValidUnit(quote: char, u: Unit) {
    match u
    case Chr(c) => c >= ' ' && c != quote && c != '\\'
    case Esc(letter) => letter in "\"\\/bfnrt" || (quote == '\'' && letter == '\'')
    case Uni(hex) => |hex| == 4 && IsHexDigit(hex[0]) && IsHexDigit(hex[1]) && IsHexDigit(hex[2]) && IsHexDigit(hex[3])
  }

  predicate WfLit(lit: Lit) {
    && (lit.quote == '"' || lit.quote == '\'')
    && forall i | 0 <= i < |lit.units| :: ValidUnit(lit.quote, lit.units[i])
  }

  predicate IsIdentifier(u: Unicode, name: string) {
    name != "" && StartsWord(u, name[0]) && forall i | 0 <= i < |name| :: InWord(u, name[i])
  }

  predicate WfKey(u: Unicode, key: Key) {
    match key
    case Bare(name) => IsIdentifier(u, name)
    case Named(lit) => WfLit(lit)
  }

  function Digits(s: string): (n: nat)
    ensures n <= |s| && forall i | 0 <= i < n :: IsDigit(s[i])
  {
    if s == "" || !IsDigit(s[0]) then 0 else 1 + Digits(s[1..])
  }

  /** RFC 8259, section 6: an optional minus sign, digits without a leading zero, and optionally a
      fraction and an exponent. */
  predicate IsNumber(s: string) {
    var digits := if s != "" && s[0] == '-' then s[1..] else s;
    var n := Digits(digits);
    n > 0 && (digits[0] == '0' ==> n == 1) && IsFraction(digits[n..])
  }

  predicate IsFraction(s: string) {
    if s != "" && s[0] == '.' then Digits(s[1..]) > 0 && IsExponent(s[1..][Digits(s[1..])..]) else IsExponent(s)
  }

  predicate IsExponent(s: string) {
    s == "" || ((s[0] == 'e' || s[0] == 'E') && |s| > 1 &&
                var digits := if s[1] == '+' || s[1] == '-' then s[2..] else s[1..];
                digits != "" && Digits(digits) == |digits|)
  }

  function CtorKey(name: string): Option<string> {
    if name == "ObjectId" then Some("$oid")
    else if name == "ISODate" then Some("$date")
    else if name == "NumberLong" then Some("$numberLong")
    else if name == "NumberDecimal" then Some("$numberDecimal")
    else None
  }

  predicate IsCtorName(name: string) {
    CtorKey(name).Some? || name == "NumberInt"
  }

  predicate IsPlainNumber(s: string) {
    s != "" && forall i | 0 <= i < |s| :: IsDigit(s[i]) || s[i] == '-' || s[i] == '.'
  }

  /** The argument of a constructor: one literal, which the first closing parenthesis ends, or a plain
      number. What stands between the quotes is taken as it is. */
  predicate WfArg(arg: CtorArg) {
    match arg
    case QuotedArg(quote, body) => (quote == '"' || quote == '\'') && ')' !in body
    case BareArg(number) => IsPlainNumber(number)
  }

  function ArgContent(arg: CtorArg): string {
    match arg
    case QuotedArg(_, body) => body
    case BareArg(number) => number
  }

  predicate Wf(u: Unicode, v: Json) {
    match v
    case Str(lit) => WfLit(lit)
    case Word(word) => word == "true" || word == "false" || word == "null"
    case Num(number) => IsNumber(number)
    case Arr(items) => WfItems(u, items)
    case Obj(members) => WfMembers(u, members)
    case Ctor(name, gap, before, arg, after) =>
      && IsCtorName(name) && IsSpace(gap) && IsSpace(before) && IsSpace(after) && WfArg(arg)
      && (name == "NumberInt" ==> IsNumber(ArgContent(arg)))
  }

  predicate WfItems(u: Unicode, items: Items) {
    match items
    case NoItems(space) => IsSpace(space)
    case LastItem(before, value, after) => IsSpace(before) && Wf(u, value) && IsSpace(after)
    case Item(before, value, after, rest) => IsSpace(before) && Wf(u, value) && IsSpace(after) && WfItems(u, rest)
  }

  predicate WfMember(u: Unicode, m: Member) {
    IsSpace(m.before) && WfKey(u, m.key) && IsSpace(m.colon) && IsSpace(m.gap) && Wf(u, m.value) && IsSpace(m.after)
  }

  predicate WfMembers(u: Unicode, members: Members) {
    match members
    case NoMembers(space) => IsSpace(space)
    case LastMember(member) => WfMember(u, member)
    case MoreMembers(member, rest) => WfMember(u, member) && WfMembers(u, rest)
  }

  // ----- trees whose literals close where they end

  /** Scanners that know string literals agree with the tree on where its constructors' literals end. */
  predicate Closed(v: Json) {
    match v
    case Arr(items) => ClosedItems(items)
    case Obj(members) => ClosedMembers(members)
    case Ctor(_, _, _, arg, _) => ClosedArg(arg)
    case _ => true
  }

  predicate ClosedArg(arg: CtorArg) {
    arg.QuotedArg? ==> JsComments.LeavesOpen(arg.quote, arg.body)
  }

  predicate ClosedItems(items: Items) {
    match items
    case NoItems(_) => true
    case LastItem(_, value, _) => Closed(value)
    case Item(_, value, _, rest) => Closed(value) && ClosedItems(rest)
  }

  predicate ClosedMembers(members: Members) {
    match members
    case NoMembers(_) => true
    case LastMember(m) => Closed(m.value)
    case MoreMembers(m, rest) => Closed(m.value) && ClosedMembers(rest)
  }

  lemma {:induction false} PlainCloses(quote: char, s: string)
    requires forall i | 0 <= i < |s| :: s[i] != '\\' && s[i] != quote
    ensures JsComments.LeavesOpen(quote, s)
  {
    if s != "" {
      PlainCloses(quote, s[1..]);
    }
  }

  lemma UnitCloses(quote: char, un: Unit)
    requires (quote == '"' || quote == '\'') && ValidUnit(quote, un)
    ensures JsComments.LeavesOpen(quote, UnitText(un))
  {
    match un
    case Chr(c) => PlainCloses(quote, [c]);
    case Esc(letter) => assert ['\\', letter][2..] == "";
    case Uni(hex) =>
      PlainCloses(quote, hex);
      assert ("\\u" + hex)[2..] == hex;
  }

  lemma {:induction false} UnitsClose(quote: char, units: seq<Unit>)
    requires quote == '"' || quote == '\''
    requires forall i | 0 <= i < |units| :: ValidUnit(quote, units[i])
    ensures JsComments.LeavesOpen(quote, UnitsText(units))
  {
    hide ValidUnit, UnitText;
    if units != [] {
      UnitCloses(quote, units[0]);
      UnitsClose(quote, units[1..]);
      JsComments.ClosesConcat(quote, UnitText(units[0]), UnitsText(units[1..]));
    }
  }

  // ----- strict JSON

  predicate StrictKeyForm(key: Key) {
    key.Named? && key.lit.quote == '"'
  }

  /** The trees whose text is in the grammar of RFC 8259. */
  predicate IsStrict(v: Json) {
    match v
    case Str(lit) => lit.quote == '"'
    case Word(_) => true
    case Num(_) => true
    case Arr(items) => StrictItemsForm(items)
    case Obj(members) => StrictMembersForm(members)
    case Ctor(_, _, _, _, _) => false
  }

  predicate StrictItemsForm(items: Items) {
    match items
    case NoItems(_) => true
    case LastItem(_, value, _) => IsStrict(value)
    case Item(_, value, _, rest) => IsStrict(value) && !rest.NoItems? && StrictItemsForm(rest)
  }

  predicate StrictMembersForm(members: Members) {
    match members
    case NoMembers(_) => true
    case LastMember(m) => StrictKeyForm(m.key) && IsStrict(m.value)
    case MoreMembers(m, rest) =>
      StrictKeyForm(m.key) && IsStrict(m.value) && !rest.NoMembers? && StrictMembersForm(rest)
  }

  function StrictUnit(quote: char, u: Unit): Unit {
    if quote == '\'' && u == Chr('"') then Esc('"')
    else if quote == '\'' && u == Esc('\'') then Chr('\'')
    else u
  }

  function StrictLit(lit: Lit): Lit {
    Lit('"', seq(|lit.units|, i requires 0 <= i < |lit.units| => StrictUnit(lit.quote, lit.units[i])))
  }

  function PlainLit(text: string): Lit {
    Lit('"', seq(|text|, i requires 0 <= i < |text| => Chr(text[i])))
  }

  function StrictKey(key: Key): Key {
    match key
    case Bare(name) => Named(PlainLit(name))
    case Named(lit) => Named(StrictLit(lit))
  }

  /** The shortest way to write a character in a strict string. */
  function CharUnit(c: char): Unit {
    if c == '"' || c == '\\' then Esc(c)
    else if c == '\U{0008}' then Esc('b')
    else if c == '\t' then Esc('t')
    else if c == '\n' then Esc('n')
    else if c == '\U{000C}' then Esc('f')
    else if c == '\r' then Esc('r')
    else if c < ' ' then Uni(['0', '0', HexDigit(c as int / 16), HexDigit(c as int % 16)])
    else Chr(c)
  }

  function StringLit(text: string): Lit {
    Lit('"', seq(|text|, i requires 0 <= i < |text| => CharUnit(text[i])))
  }

  function ExtMember(key: string, content: string): Member {
    Member("", Named(PlainLit(key)), "", " ", Str(StringLit(content)), "")
  }

  /** A shell constructor as Extended JSON; NumberInt is just its number. */
  function CtorJson(name: string, content: string): Json {
    match CtorKey(name)
    case Some(key) => Obj(LastMember(ExtMember(key, content)))
    case None => Num(content)
  }

  function Strict(v: Json): Json {
    match v
    case Str(lit) => Str(StrictLit(lit))
    case Word(_) => v
    case Num(_) => v
    case Arr(items) => Arr(StrictItems(items))
    case Obj(members) => Obj(StrictMembers(members))
    case Ctor(name, _, _, arg, _) => CtorJson(name, ArgContent(arg))
  }

  function StrictItems(items: Items): Items {
    match items
    case NoItems(_) => items
    case LastItem(before, value, after) => LastItem(before, Strict(value), after)
    case Item(before, value, after, rest) =>
      if rest.NoItems? then LastItem(before, Strict(value), after + rest.space)
      else Item(before, Strict(value), after, StrictItems(rest))
  }

  function StrictMember(m: Member): Member {
    Member(m.before, StrictKey(m.key), m.colon, m.gap, Strict(m.value), m.after)
  }

  function StrictMembers(members: Members): Members {
    match members
    case NoMembers(_) => members
    case LastMember(member) => LastMember(StrictMember(member))
    case MoreMembers(member, rest) =>
      if rest.NoMembers? then LastMember(StrictMember(member).(after := member.after + rest.space))
      else MoreMembers(StrictMember(member), StrictMembers(rest))
  }

  // ----- meaning

  /** A value; a string is the sequence of its code points, and of the code units written as escapes.
      A number is given by its digits. */
  datatype Value =
    | StringValue(codes: seq<nat>)
    | WordValue(word: string)
    | NumberValue(digits: string)
    | ArrayValue(values: seq<Value>)
    | ObjectValue(fields: seq<Field>)

  datatype Field = Field(name: seq<nat>, value: Value)

  function UnitCode(u: Unit): nat {
    match u
    case Chr(c) => c as nat
    case Esc(letter) =>
      if letter == 'b' then 8 else if letter == 'f' then 12 else if letter == 'n' then 10
      else if letter == 'r' then 13 else if letter == 't' then 9 else letter as nat
    case Uni(hex) =>
      if |hex| != 4 then 0
      else HexValue(hex[0]) * 4096 + HexValue(hex[1]) * 256 + HexValue(hex[2]) * 16 + HexValue(hex[3])
  }

  function LitCodes(lit: Lit): seq<nat> {
    seq(|lit.units|, i requires 0 <= i < |lit.units| => UnitCode(lit.units[i]))
  }

  function Codes(text: string): seq<nat> {
    seq(|text|, i requires 0 <= i < |text| => text[i] as nat)
  }

  function KeyCodes(key: Key): seq<nat> {
    match key
    case Bare(name) => Codes(name)
    case Named(lit) => LitCodes(lit)
  }

  function Denote(v: Json): Value {
    match v
    case Str(lit) => StringValue(LitCodes(lit))
    case Word(word) => WordValue(word)
    case Num(number) => NumberValue(number)
    case Arr(items) => ArrayValue(DenoteItems(items))
    case Obj(members) => ObjectValue(DenoteMembers(members))
    case Ctor(name, _, _, arg, _) =>
      match CtorKey(name)
      case Some(key) => ObjectValue([Field(Codes(key), StringValue(Codes(ArgContent(arg))))])
      case None => NumberValue(ArgContent(arg))
  }

  function DenoteItems(items: Items): seq<Value> {
    match items
    case NoItems(_) => []
    case LastItem(_, value, _) => [Denote(value)]
    case Item(_, value, _, rest) => [Denote(value)] + DenoteItems(rest)
  }

  function DenoteMember(m: Member): Field {
    Field(KeyCodes(m.key), Denote(m.value))
  }

  function DenoteMembers(members: Members): seq<Field> {
    match members
    case NoMembers(_) => []
    case LastMember(member) => [DenoteMember(member)]
    case MoreMembers(member, rest) => [DenoteMember(member)] + DenoteMembers(rest)
  }

  // ----- the strict form is strict, and means the same

  lemma PlainLitCodes(text: string)
    ensures LitCodes(PlainLit(text)) == Codes(text)
  {
  }

  lemma HexRoundTrip(n: nat)
    requires n < 16
    ensures HexValue(HexDigit(n)) == n && IsHexDigit(HexDigit(n))
  {
  }

  lemma CharUnitCode(c: char)
    ensures UnitCode(CharUnit(c)) == c as nat && ValidUnit('"', CharUnit(c))
  {
    if c < ' ' {
      HexRoundTrip(c as nat / 16);
      HexRoundTrip(c as nat % 16);
    }
  }

  lemma StringLitCodes(text: string)
    ensures LitCodes(StringLit(text)) == Codes(text) && WfLit(StringLit(text))
  {
    forall i | 0 <= i < |text|
      ensures UnitCode(CharUnit(text[i])) == text[i] as nat && ValidUnit('"', CharUnit(text[i]))
    {
      CharUnitCode(text[i]);
    }
  }

  lemma StrictLitCodes(lit: Lit)
    requires WfLit(lit)
    ensures LitCodes(StrictLit(lit)) == LitCodes(lit) && WfLit(StrictLit(lit))
    ensures lit.quote == '"' ==> StrictLit(lit) == lit
  {
    forall i | 0 <= i < |lit.units|
      ensures UnitCode(StrictUnit(lit.quote, lit.units[i])) == UnitCode(lit.units[i])
      ensures ValidUnit('"', StrictUnit(lit.quote, lit.units[i]))
    {
      assert ValidUnit(lit.quote, lit.units[i]);
    }
  }

  lemma AsciiChar(u: Unicode, c: char)
    requires Coherent(u) && c < '\U{0080}'
    ensures InWord(u, c) == (IsLetter(c) || IsDigit(c) || c == '_' || c == '$')
    ensures StartsWord(u, c) == (IsLetter(c) || c == '_' || c == '$')
  {
  }

  lemma WordCharIsPlain(u: Unicode, c: char)
    requires Coherent(u) && InWord(u, c)
    ensures ValidUnit('"', Chr(c))
  {
    if c < '\U{0080}' {
      AsciiChar(u, c);
    }
  }

  lemma BareKeyStrict(u: Unicode, name: string)
    requires Coherent(u) && IsIdentifier(u, name)
    ensures WfLit(PlainLit(name))
  {
    forall i | 0 <= i < |name| ensures ValidUnit('"', Chr(name[i])) {
      WordCharIsPlain(u, name[i]);
    }
  }

  lemma StrictKeyKeeps(u: Unicode, key: Key)
    requires Coherent(u) && WfKey(u, key)
    ensures WfKey(u, StrictKey(key)) && StrictKeyForm(StrictKey(key)) && KeyCodes(StrictKey(key)) == KeyCodes(key)
    ensures StrictKeyForm(key) ==> StrictKey(key) == key
  {
    match key
    case Bare(name) =>
      BareKeyStrict(u, name);
      PlainLitCodes(name);
    case Named(lit) => StrictLitCodes(lit);
  }

  lemma CtorKeyPlain(name: string)
    requires CtorKey(name).Some?
    ensures WfLit(PlainLit(CtorKey(name).value))
  {
    var key := CtorKey(name).value;
    assert forall i | 0 <= i < |key| :: key[i] == '$' || IsLetter(key[i]);
  }

  lemma ExtMemberStrict(u: Unicode, key: string, content: string)
    requires WfLit(PlainLit(key))
    ensures var m := ExtMember(key, content);
      && WfMember(u, m) && StrictKeyForm(m.key) && IsStrict(m.value)
      && DenoteMember(m) == Field(Codes(key), StringValue(Codes(content)))
  {
    PlainLitCodes(key);
    StringLitCodes(content);
    var text := Str(StringLit(content));
    assert Wf(u, text) && IsStrict(text) && Denote(text) == StringValue(Codes(content));
  }

  lemma OneMemberStrict(u: Unicode, m: Member)
    requires WfMember(u, m) && StrictKeyForm(m.key) && IsStrict(m.value)
    ensures var v := Obj(LastMember(m)); Wf(u, v) && IsStrict(v) && Denote(v) == ObjectValue([DenoteMember(m)])
  {
    var members := LastMember(m);
    assert WfMembers(u, members) && StrictMembersForm(members) && DenoteMembers(members) == [DenoteMember(m)];
  }

  lemma CtorJsonStrict(u: Unicode, name: string, arg: CtorArg)
    requires IsCtorName(name) && (name == "NumberInt" ==> IsNumber(ArgContent(arg)))
    ensures Wf(u, CtorJson(name, ArgContent(arg))) && IsStrict(CtorJson(name, ArgContent(arg)))
    ensures Denote(CtorJson(name, ArgContent(arg))) == Denote(Ctor(name, "", "", arg, ""))
  {
    var content := ArgContent(arg);
    match CtorKey(name)
    case Some(key) =>
      CtorKeyPlain(name);
      ExtMemberStrict(u, key, content);
      OneMemberStrict(u, ExtMember(key, content));
    case None =>
  }

  lemma SpaceConcat(a: string, b: string)
    requires IsSpace(a) && IsSpace(b)
    ensures IsSpace(a + b)
  {
  }

  /** The strict form of a tree is in the grammar of RFC 8259 and means what the tree means. */
  lemma {:induction false} StrictKeeps(u: Unicode, v: Json)
    requires Coherent(u) && Wf(u, v)
    ensures Wf(u, Strict(v)) && IsStrict(Strict(v)) && Denote(Strict(v)) == Denote(v)
  {
    match v
    case Str(lit) => StrictLitCodes(lit);
    case Word(_) =>
    case Num(_) =>
    case Arr(items) => StrictKeepsItems(u, items);
    case Obj(members) => StrictKeepsMembers(u, members);
    case Ctor(name, _, _, arg, _) => CtorJsonStrict(u, name, arg);
  }

  lemma {:induction false} StrictKeepsItems(u: Unicode, items: Items)
    requires Coherent(u) && WfItems(u, items)
    ensures WfItems(u, StrictItems(items)) && StrictItemsForm(StrictItems(items))
    ensures DenoteItems(StrictItems(items)) == DenoteItems(items)
    ensures StrictItems(items).NoItems? <==> items.NoItems?
  {
    match items
    case NoItems(_) =>
    case LastItem(_, value, _) => StrictKeeps(u, value);
    case Item(_, value, after, rest) =>
      StrictKeeps(u, value);
      StrictKeepsItems(u, rest);
      if rest.NoItems? {
        SpaceConcat(after, rest.space);
      }
  }

  lemma {:induction false} StrictKeepsMember(u: Unicode, m: Member)
    requires Coherent(u) && WfMember(u, m)
    ensures WfMember(u, StrictMember(m)) && StrictKeyForm(StrictMember(m).key) && IsStrict(StrictMember(m).value)
    ensures DenoteMember(StrictMember(m)) == DenoteMember(m)
  {
    StrictKeyKeeps(u, m.key);
    StrictKeeps(u, m.value);
  }

  lemma {:induction false} StrictKeepsMembers(u: Unicode, members: Members)
    requires Coherent(u) && WfMembers(u, members)
    ensures WfMembers(u, StrictMembers(members)) && StrictMembersForm(StrictMembers(members))
    ensures DenoteMembers(StrictMembers(members)) == DenoteMembers(members)
    ensures StrictMembers(members).NoMembers? <==> members.NoMembers?
  {
    match members
    case NoMembers(_) =>
    case LastMember(member) => StrictKeepsMember(u, member);
    case MoreMembers(member, rest) =>
      StrictKeepsMember(u, member);
      StrictKeepsMembers(u, rest);
      if rest.NoMembers? {
        SpaceConcat(member.after, rest.space);
      }
  }

  /** A strict tree is its own strict form. */
  lemma {:induction false} StrictIsItself(u: Unicode, v: Json)
    requires Coherent(u) && Wf(u, v) && IsStrict(v)
    ensures Strict(v) == v
  {
    match v
    case Str(lit) => StrictLitCodes(lit);
    case Word(_) =>
    case Num(_) =>
    case Arr(items) => StrictItemsAreThemselves(u, items);
    case Obj(members) => StrictMembersAreThemselves(u, members);
  }

  lemma {:induction false} StrictItemsAreThemselves(u: Unicode, items: Items)
    requires Coherent(u) && WfItems(u, items) && StrictItemsForm(items)
    ensures StrictItems(items) == items
  {
    match items
    case NoItems(_) =>
    case LastItem(_, value, _) => StrictIsItself(u, value);
    case Item(_, value, _, rest) =>
      StrictIsItself(u, value);
      StrictItemsAreThemselves(u, rest);
  }

  lemma {:induction false} StrictMembersAreThemselves(u: Unicode, members: Members)
    requires Coherent(u) && WfMembers(u, members) && StrictMembersForm(members)
    ensures StrictMembers(members) == members
  {
    match members
    case NoMembers(_) =>
    case LastMember(m) =>
      StrictKeyKeeps(u, m.key);
      StrictIsItself(u, m.value);
    case MoreMembers(m, rest) =>
      StrictKeyKeeps(u, m.key);
      StrictIsItself(u, m.value);
      StrictMembersAreThemselves(u, rest);
  }
}
