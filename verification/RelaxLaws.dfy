/** What relaxing does, spelled out: each constructor with its Extended JSON, the escapes of a string, and
    what stays as it is written. */
module RelaxLaws {
  import opened Text
  import opened JsonSyntax
  import opened RelaxJson
  import opened RelaxMeaning

  predicate IsNumeral(n: string) {
    n != "" && forall i | 0 <= i < |n| :: '0' <= n[i] <= '9' || n[i] == '-' || n[i] == '.'
  }

  /** Text that needs no escape in a string and holds no closing parenthesis. */
  predicate IsPlain(s: string) {
    forall i | 0 <= i < |s| :: s[i] != '"' && s[i] != '\\' && s[i] >= ' ' && s[i] != ')'
  }

  lemma ArgParts(name: string, text: string)
    ensures name + ("" + ("(" + ("" + text + "" + ")"))) == name + "(" + text + ")"
  {
  }

  lemma CallBecomes(u: Unicode, prev: Option<char>, name: string, arg: CtorArg, tail: string)
    requires Coherent(u) && IsCtorName(name) && WfArg(arg) && name != "NumberInt"
    ensures Becomes(u, prev, name + "(" + ArgText(arg) + ")", Replacement(name, ArgContent(arg)), tail)
  {
    hide Becomes, Coherent, Replacement, IsCtorName, WfArg;
    var v := Ctor(name, "", "", arg, "");
    ArgParts(name, ArgText(arg));
    CtorBecomes(u, prev, v, tail);
    ReplacementText(name, ArgContent(arg));
    assert Strict(v) == CtorJson(name, ArgContent(arg));
  }

  lemma PlainReplacement(name: string, key: string, literal: string)
    requires CtorKey(name) == Some(key) && IsPlain(literal)
    ensures Replacement(name, literal) == "{\"" + key + "\": \"" + literal + "\"}"
  {
    hide UnitsText;
    PlainString(literal);
    assert LitText(StringLit(literal)) == "\"" + literal + "\"";
    InBraces(key, literal);
  }

  lemma InBraces(key: string, literal: string)
    ensures "{\"" + key + "\": " + ("\"" + literal + "\"") + "}" == "{\"" + key + "\": \"" + literal + "\"}"
  {
  }

  lemma NumeralIsPlain(n: string)
    requires IsNumeral(n)
    ensures IsPlain(n) && WfArg(BareArg(n)) && ArgText(BareArg(n)) == ArgContent(BareArg(n)) == n
  {
  }

  lemma QuotedIsPlain(quote: char, s: string)
    requires (quote == '"' || quote == '\'') && IsPlain(s)
    ensures var arg := QuotedArg(quote, s); WfArg(arg) && ArgText(arg) == [quote] + s + [quote] && ArgContent(arg) == s
  {
  }

  /** A constructor with a bare number. */
  lemma NumeralBecomes(u: Unicode, prev: Option<char>, name: string, key: string, n: string, tail: string)
    requires Coherent(u) && CtorKey(name) == Some(key) && IsNumeral(n)
    ensures Becomes(u, prev, name + "(" + n + ")", "{\"" + key + "\": \"" + n + "\"}", tail)
  {
    hide Becomes, Coherent, Replacement, WfArg, CtorKey, IsNumeral, IsPlain;
    CtorNameLetter(name);
    NumeralIsPlain(n);
    CallBecomes(u, prev, name, BareArg(n), tail);
    PlainReplacement(name, key, n);
  }

  /** A constructor with a text in quotes. */
  lemma QuotedBecomes(u: Unicode, prev: Option<char>, name: string, key: string, quote: char, s: string, tail: string)
    requires Coherent(u) && CtorKey(name) == Some(key) && (quote == '"' || quote == '\'') && IsPlain(s)
    ensures Becomes(u, prev, name + "(" + ([quote] + s + [quote]) + ")", "{\"" + key + "\": \"" + s + "\"}", tail)
  {
    hide Becomes, Coherent, Replacement, WfArg, CtorKey, IsPlain;
    CtorNameLetter(name);
    QuotedIsPlain(quote, s);
    CallBecomes(u, prev, name, QuotedArg(quote, s), tail);
    PlainReplacement(name, key, s);
  }

  // ----- the five constructors

  lemma NumberLongBecomes(u: Unicode, prev: Option<char>, n: string, tail: string)
    requires Coherent(u) && IsNumeral(n)
    ensures Becomes(u, prev, "NumberLong(" + n + ")", "{\"$numberLong\": \"" + n + "\"}", tail)
  {
    hide Becomes, Coherent;
    NumeralBecomes(u, prev, "NumberLong", "$numberLong", n, tail);
    assert "NumberLong" + "(" == "NumberLong(" && "{\"" + "$numberLong" + "\": \"" == "{\"$numberLong\": \"";
  }

  lemma NumberDecimalBecomes(u: Unicode, prev: Option<char>, n: string, tail: string)
    requires Coherent(u) && IsNumeral(n)
    ensures Becomes(u, prev, "NumberDecimal(" + n + ")", "{\"$numberDecimal\": \"" + n + "\"}", tail)
  {
    hide Becomes, Coherent;
    NumeralBecomes(u, prev, "NumberDecimal", "$numberDecimal", n, tail);
    assert "NumberDecimal" + "(" == "NumberDecimal(";
    assert "{\"" + "$numberDecimal" + "\": \"" == "{\"$numberDecimal\": \"";
  }

  lemma QuotedNumbersBecome(u: Unicode, prev: Option<char>, s: string, tail: string)
    requires Coherent(u) && IsPlain(s)
    ensures Becomes(u, prev, "NumberLong(\"" + s + "\")", "{\"$numberLong\": \"" + s + "\"}", tail)
    ensures Becomes(u, prev, "NumberDecimal(\"" + s + "\")", "{\"$numberDecimal\": \"" + s + "\"}", tail)
  {
    hide Becomes, Coherent, IsPlain;
    QuotedBecomes(u, prev, "NumberLong", "$numberLong", '"', s, tail);
    assert "NumberLong" + "(" + (['"'] + s + ['"']) + ")" == "NumberLong(\"" + s + "\")";
    assert "{\"" + "$numberLong" + "\": \"" == "{\"$numberLong\": \"";
    QuotedBecomes(u, prev, "NumberDecimal", "$numberDecimal", '"', s, tail);
    assert "NumberDecimal" + "(" + (['"'] + s + ['"']) + ")" == "NumberDecimal(\"" + s + "\")";
    assert "{\"" + "$numberDecimal" + "\": \"" == "{\"$numberDecimal\": \"";
  }

  lemma ObjectIdBecomes(u: Unicode, prev: Option<char>, s: string, tail: string)
    requires Coherent(u) && IsPlain(s)
    ensures Becomes(u, prev, "ObjectId(\"" + s + "\")", "{\"$oid\": \"" + s + "\"}", tail)
    ensures Becomes(u, prev, "ObjectId('" + s + "')", "{\"$oid\": \"" + s + "\"}", tail)
  {
    hide Becomes, Coherent, IsPlain;
    QuotedBecomes(u, prev, "ObjectId", "$oid", '"', s, tail);
    QuotedBecomes(u, prev, "ObjectId", "$oid", '\'', s, tail);
    assert "ObjectId" + "(" + (['"'] + s + ['"']) + ")" == "ObjectId(\"" + s + "\")";
    assert "ObjectId" + "(" + (['\''] + s + ['\'']) + ")" == "ObjectId('" + s + "')";
    assert "{\"" + "$oid" + "\": \"" == "{\"$oid\": \"";
  }

  lemma ISODateBecomes(u: Unicode, prev: Option<char>, s: string, tail: string)
    requires Coherent(u) && IsPlain(s)
    ensures Becomes(u, prev, "ISODate(\"" + s + "\")", "{\"$date\": \"" + s + "\"}", tail)
    ensures Becomes(u, prev, "ISODate('" + s + "')", "{\"$date\": \"" + s + "\"}", tail)
  {
    hide Becomes, Coherent, IsPlain;
    QuotedBecomes(u, prev, "ISODate", "$date", '"', s, tail);
    QuotedBecomes(u, prev, "ISODate", "$date", '\'', s, tail);
    assert "ISODate" + "(" + (['"'] + s + ['"']) + ")" == "ISODate(\"" + s + "\")";
    assert "ISODate" + "(" + (['\''] + s + ['\'']) + ")" == "ISODate('" + s + "')";
    assert "{\"" + "$date" + "\": \"" == "{\"$date\": \"";
  }

  /** `NumberInt(5)` is just the number, bare or quoted. */
  lemma NumberIntBecomes(u: Unicode, prev: Option<char>, n: string, tail: string)
    requires Coherent(u) && IsNumeral(n)
    ensures Becomes(u, prev, "NumberInt(" + n + ")", n, tail)
  {
    hide Becomes, Coherent, LastInk, CallArgument, UpToParen, NextInk;
    NumeralIsPlain(n);
    BodyLiteral("", BareArg(n), "", tail);
    assert "" + n + "" == n;
    CallInParens("", n, tail, n);
    assert "" + ("(" + (n + ")")) == "(" + n + ")";
    CtorNameIsWord(u, "NumberInt");
    CtorPiece(u, prev, "NumberInt", "(" + n + ")", n, tail);
    assert "NumberInt" + ("(" + n + ")") == "NumberInt(" + n + ")";
  }

  // ----- what is no constructor

  /** Any other name in front of a parenthesis stays. */
  lemma OtherNameStays(u: Unicode, prev: Option<char>, name: string, rest: string)
    requires Coherent(u) && IsIdentifier(u, name)
    requires name != "ObjectId" && name != "ISODate" && name != "NumberLong" && name != "NumberDecimal"
    requires name != "NumberInt"
    ensures Becomes(u, prev, name, name, "(" + rest)
  {
    hide Becomes, Coherent, CallArgument, IsIdentifier;
    var tail := "(" + rest;
    NotInWord(u, tail);
    assert NextInk(tail) == Some('(');
    WordStarts(u, name);
    WordIsNotSpace(u, name[0]);
    WordBecomes(u, prev, name, name, tail);
  }

  /** So does a constructor without parentheses. */
  lemma BareNameStays(u: Unicode, prev: Option<char>, name: string, c: char, rest: string)
    requires Coherent(u) && IsIdentifier(u, name) && (c == ',' || c == ']' || c == '}')
    ensures Becomes(u, prev, name, name, [c] + rest)
  {
    hide Becomes, Coherent, IsIdentifier, UpToParen;
    var tail := [c] + rest;
    NotInWord(u, tail);
    assert NextInk(tail) == Some(c);
    WordStarts(u, name);
    WordIsNotSpace(u, name[0]);
    assert SpaceLength(tail) == 0;
    WordBecomes(u, prev, name, name, tail);
  }

  /** And one whose argument, up to the first closing parenthesis, is neither a number nor in quotes. */
  lemma OtherArgumentStays(u: Unicode, prev: Option<char>, name: string, inner: string, tail: string)
    requires Coherent(u) && IsCtorName(name) && ')' !in inner && Trimmed(inner) && !IsNumeral(inner)
    requires |inner| < 2 || (inner[0] != '"' && inner[0] != '\'') || inner[|inner| - 1] != inner[0]
    ensures Becomes(u, prev, name, name, "(" + inner + ")" + tail)
  {
    hide Becomes, Coherent, IsCtorName, Trim;
    var rest := "(" + inner + ")" + tail;
    FindAfter(inner, ')', tail);
    assert rest[1..] == inner + [')'] + tail;
    assert (inner + [')'] + tail)[..|inner|] == inner;
    assert Trim(inner) == inner by { TrimIsSame(inner); }
    assert SpaceLength(rest) == 0;
    NameStays(u, prev, name, rest);
  }

  lemma TrimIsSame(s: string)
    requires Trimmed(s)
    ensures Trim(s) == s
  {
  }

  // ----- strings

  /** How a string is written as JSON. */
  lemma EscapesOf(c: char)
    ensures UnitText(CharUnit('"')) == "\\\"" && UnitText(CharUnit('\\')) == "\\\\"
    ensures UnitText(CharUnit('\n')) == "\\n" && UnitText(CharUnit('\r')) == "\\r" && UnitText(CharUnit('\t')) == "\\t"
    ensures UnitText(CharUnit('\U{0008}')) == "\\b" && UnitText(CharUnit('\U{000C}')) == "\\f"
    ensures c < '\U{0020}' && c !in "\n\r\t\U{0008}\U{000C}" ==>
      UnitText(CharUnit(c)) == "\\u00" + ["01"[c as int / 16], "0123456789abcdef"[c as int % 16]]
    ensures c >= '\U{0020}' && c != '"' && c != '\\' ==> UnitText(CharUnit(c)) == [c]
  {
    if c < ' ' {
      LowDigit(c as int / 16);
      LowDigit(c as int % 16);
      if c !in "\n\r\t\U{0008}\U{000C}" {
        var a, b := HexDigit(c as int / 16), HexDigit(c as int % 16);
        assert "\\u" + ['0', '0', a, b] == "\\u00" + [a, b];
      }
    }
  }

  lemma LowDigit(n: nat)
    requires n < 16
    ensures HexDigit(n) == "0123456789abcdef"[n] && (n < 2 ==> HexDigit(n) == "01"[n])
  {
  }

  /** What the escapes of a string mean. */
  lemma EscapesMean(a: nat, b: nat, c: nat, d: nat)
    requires a < 16 && b < 16 && c < 16 && d < 16
    ensures UnitCode(Esc('"')) == 0x22 && UnitCode(Esc('\\')) == 0x5C && UnitCode(Esc('/')) == 0x2F
    ensures UnitCode(Esc('b')) == 8 && UnitCode(Esc('f')) == 12 && UnitCode(Esc('n')) == 10
    ensures UnitCode(Esc('r')) == 13 && UnitCode(Esc('t')) == 9
    ensures var low := "0123456789abcdef";
      UnitCode(Uni([low[a], low[b], low[c], low[d]])) == 4096 * a + 256 * b + 16 * c + d
    ensures var high := "0123456789ABCDEF";
      UnitCode(Uni([high[a], high[b], high[c], high[d]])) == 4096 * a + 256 * b + 16 * c + d
  {
    DigitValue(a);
    DigitValue(b);
    DigitValue(c);
    DigitValue(d);
  }

  lemma DigitValue(n: nat)
    requires n < 16
    ensures HexValue("0123456789abcdef"[n]) == n && HexValue("0123456789ABCDEF"[n]) == n
  {
  }
}
