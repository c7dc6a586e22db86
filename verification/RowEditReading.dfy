/** How the values of a row edit are read: exactly which ones become what they stand for. */
module RowEditReading {
  import opened Text
  import opened JsonSyntax
  import opened RelaxJson
  import opened RelaxMeaning
  import opened RelaxTree
  import opened RowEdit

  // ----- one value

  lemma CallParts(name: string, prefix: string, s: string)
    requires OpensCall(name, prefix) && LooksLikeCall(prefix, s)
    ensures |prefix| + 2 <= |s| ==> s == name + ("(" + (['"'] + CallBody(prefix, s) + ['"']) + ")")
    ensures |s| < |prefix| + 2 ==> s == name + "(\")"
  {
    OpensWithQuote(name, prefix);
    if |prefix| + 2 <= |s| {
      CallSlices(prefix, s);
      QuotedBody(name, CallBody(prefix, s));
    } else {
      ShortCall(prefix, s);
      assert name + "(\"" + ")" == name + "(\")";
    }
  }

  lemma OpensWithQuote(name: string, prefix: string)
    requires OpensCall(name, prefix)
    ensures prefix == name + "(\""
  {
  }

  lemma QuotedBody(name: string, body: string)
    ensures name + "(\"" + body + "\")" == name + ("(" + (['"'] + body + ['"']) + ")")
  {
  }

  lemma ShortCall(prefix: string, s: string)
    requires LooksLikeCall(prefix, s) && |s| < |prefix| + 2 && prefix != "" && prefix[|prefix| - 1] == '"'
    ensures s == prefix + ")"
  {
    assert s[|s| - 1] == ')' && s[|s| - 2] == '"';
    assert |s| > |prefix|;
    assert s == s[..|prefix|] + [s[|prefix|]];
  }

  lemma OneQuoteIsNoCall(tail: string)
    ensures CallArgument("(\")" + tail).None?
  {
    var s := "(\")" + tail;
    assert s[1..] == "\"" + [')'] + tail;
    FindAfter("\"", ')', tail);
    assert ("\"" + [')'] + tail)[..1] == "\"";
    assert Trim("\"") == "\"";
  }

  lemma CallDiffers(u: Unicode, prev: Option<char>, name: string, prefix: string, s: string, tail: string)
    requires Coherent(u) && OpensCall(name, prefix) && LooksLikeCall(prefix, s) && !WholeCall(prefix, s)
    ensures !(Render(Strict(CallTree(name, prefix, s))) <= RelaxFrom(u, s + tail, prev))
  {
    hide RelaxFrom, Render, CtorJson, LooksLikeCall, CallBody, CallArgument, Coherent;
    CallParts(name, prefix, s);
    if |prefix| + 2 <= |s| {
      CutCallDiffers(u, prev, name, '"', CallBody(prefix, s), tail);
    } else {
      OneQuoteIsNoCall(tail);
      Assoc(name, "(\")", tail);
      UnreadDiffers(u, prev, name, CallBody(prefix, s), "(\")" + tail);
    }
  }

  /** What is written for any other value does not even begin with what the value stands for. */
  lemma ValueDiffers(u: Unicode, prev: Option<char>, parse: string -> Option<Json>, value: string, tail: string)
    requires Coherent(u) && !WholeValue(value)
    ensures !(Render(Strict(ValueTree(parse, value))) <= RelaxFrom(u, ValueLiteral(parse, value) + tail, prev))
  {
    hide RelaxFrom, Render, Strict, LooksLikeCall, CallTree, Coherent, Trim;
    var s := Trim(value);
    if LooksLikeCall(OBJECT_ID, s) {
      NotBoth(s);
      CallDiffers(u, prev, "ObjectId", OBJECT_ID, s, tail);
    } else {
      CallDiffers(u, prev, "ISODate", ISO_DATE, s, tail);
    }
  }

  lemma NotBoth(s: string)
    requires LooksLikeCall(OBJECT_ID, s)
    ensures !LooksLikeCall(ISO_DATE, s)
  {
    assert s[0] == OBJECT_ID[0];
  }

  /** A typed value is read as what it stands for exactly when it is no constructor call or a whole one. */
  lemma ValueReadIff(u: Unicode, prev: Option<char>, parse: string -> Option<Json>, value: string, tail: string)
    requires Coherent(u) && ReadsJson(u, parse) && AfterValue(tail)
    ensures Becomes(u, prev, ValueLiteral(parse, value), Render(Strict(ValueTree(parse, value))), tail)
      <==> WholeValue(value)
  {
    hide RelaxFrom, Render, Strict, ValueTree, ValueLiteral, WholeValue, Coherent, ReadsJson, AfterValue;
    if WholeValue(value) {
      ValueTreeText(u, parse, value);
      ValueBecomes(u, prev, ValueTree(parse, value), tail);
    } else {
      ValueDiffers(u, prev, parse, value, tail);
    }
  }

  /** Such a value is the text of a relaxed tree, and what it is read as means what was typed. */
  lemma TypedValueDenotes(u: Unicode, parse: string -> Option<Json>, value: string)
    requires Coherent(u) && ReadsJson(u, parse) && WholeValue(value)
    ensures var v := ValueTree(parse, value);
      && Wf(u, v) && Render(v) == ValueLiteral(parse, value)
      && IsStrict(Strict(v)) && Denote(Strict(v)) == TypedMeaning(parse, value)
  {
    hide Render, Strict, ValueTree, ValueLiteral, WholeValue, Coherent, ReadsJson, TypedMeaning, Denote, IsStrict;
    ValueTreeText(u, parse, value);
    TreeMeaning(parse, value);
    StrictKeeps(u, ValueTree(parse, value));
  }

  /** What a typed text means, spelled out: a whole constructor call is its wrapper, a JSON text is what it
      denotes, and everything else is the string of its own characters, spaces included. */
  lemma TypedTexts(parse: string -> Option<Json>, body: string, value: string)
    ensures TypedMeaning(parse, "ObjectId(\"" + body + "\")")
      == ObjectValue([Field(Codes("$oid"), StringValue(Codes(body)))])
    ensures TypedMeaning(parse, "ISODate(\"" + body + "\")")
      == ObjectValue([Field(Codes("$date"), StringValue(Codes(body)))])
    ensures !("ObjectId(\"" <= Trim(value)) && !("ISODate(\"" <= Trim(value)) ==>
      match parse(Trim(value))
      case Some(tree) => TypedMeaning(parse, value) == Denote(tree)
      case None => TypedMeaning(parse, value) == StringValue(Codes(value))
    ensures |Trim(value)| < 2 || Trim(value)[|Trim(value)| - 2..] != "\")" ==>
      match parse(Trim(value))
      case Some(tree) => TypedMeaning(parse, value) == Denote(tree)
      case None => TypedMeaning(parse, value) == StringValue(Codes(value))
  {
    hide Trim;
    TypedCall(OBJECT_ID, body);
    TypedCall(ISO_DATE, body);
    assert ("ISODate(\"" + body + "\")")[0] == 'I' && OBJECT_ID[0] == 'O';
  }

  lemma TypedCall(prefix: string, body: string)
    requires prefix == "ObjectId(\"" || prefix == "ISODate(\""
    ensures var s := prefix + body + "\")"; LooksLikeCall(prefix, s) && CallBody(prefix, s) == body && Trim(s) == s
  {
    hide Trim;
    var s := prefix + body + "\")";
    assert s[|s| - 2..] == "\")" && s[|prefix| - 1] == '"' && s[0] == prefix[0] && s[|s| - 1] == ')';
    assert s[|prefix|..|s| - 2] == body;
    TrimIsItself(s);
  }

  lemma TrimIsItself(s: string)
    requires Trimmed(s)
    ensures Trim(s) == s
  {
  }

  /** And how it is written: a whole call and a JSON text as they are typed, anything else in quotes. */
  lemma TypedWritten(parse: string -> Option<Json>, body: string, value: string)
    ensures ValueLiteral(parse, "ObjectId(\"" + body + "\")") == "ObjectId(\"" + body + "\")"
    ensures ValueLiteral(parse, "ISODate(\"" + body + "\")") == "ISODate(\"" + body + "\")"
    ensures !("ObjectId(\"" <= Trim(value)) && !("ISODate(\"" <= Trim(value)) ==>
      ValueLiteral(parse, value) == if parse(Trim(value)).Some? then Trim(value) else LitText(StringLit(value))
  {
    hide Trim;
    TypedCall(OBJECT_ID, body);
    TypedCall(ISO_DATE, body);
    assert ("ISODate(\"" + body + "\")")[0] == 'I' && OBJECT_ID[0] == 'O';
  }

  // ----- the columns of an edit

  lemma SamePrefix(head: string, a: string, b: string)
    ensures head + a <= head + b <==> a <= b
  {
    var n := |head|;
    if head + a <= head + b {
      assert a == (head + a)[n..] && b == (head + b)[n..];
      assert (head + b)[..n + |a|] == head + a;
      assert b[..|a|] == (head + b)[..n + |a|][n..];
    }
    if a <= b {
      assert head + b == head + a + b[|a|..];
    }
  }

  lemma PrefixOfConcat(a: string, more: string, b: string)
    ensures a + more <= b ==> a <= b
  {
    assert (a + more)[..|a|] == a;
  }

  /** A key and its colon, in front of a value. */
  lemma HeadBecomes(u: Unicode, prev: Option<char>, before: string, field: string, rest: string)
    requires Coherent(u) && IsSpace(before) && GoodField(field) && (prev == Some('{') || prev == Some(','))
    ensures RelaxFrom(u, before + (FieldKey(field) + (": " + rest)), prev)
      == before + (KeyText(StrictKey(KeyTree(field))) + (": " + RelaxFrom(u, rest, Some(':'))))
  {
    hide RelaxFrom, Coherent, FieldKey, KeyTree, KeyText, StrictKey, WfKey, GoodField;
    KeyOfField(u, field);
    var key, strict := FieldKey(field), KeyText(StrictKey(KeyTree(field)));
    var tail := ": " + rest;
    SpaceStays(u, prev, before, key + tail);
    assert "" + (":" + (" " + rest)) == tail;
    KeyBecomes(u, prev, KeyTree(field), "", " " + rest);
    ColonBecomes(u, LastInk(prev, strict), rest);
  }

  lemma ColonBecomes(u: Unicode, prev: Option<char>, rest: string)
    requires Coherent(u)
    ensures RelaxFrom(u, ": " + rest, prev) == ": " + RelaxFrom(u, rest, Some(':'))
  {
    hide RelaxFrom, Coherent;
    PunctuationIsPlain(u, ':');
    PlainChar(u, prev, ':', " " + rest);
    SpaceStays(u, Some(':'), " ", rest);
    assert LastInk(prev, ":") == Some(':');
    assert ": " + rest == ":" + (" " + rest);
  }

  /** The texts of the columns from the first one on, in front of the end of the object. */
  function Columns(parse: string -> Option<Json>, before: string, pairs: seq<Pair>, tail: string): string {
    before + Join(PairTexts(parse, pairs), ", ") + ("}" + tail)
  }

  function Behind(parse: string -> Option<Json>, pairs: seq<Pair>, tail: string): string
    requires pairs != []
  {
    if |pairs| == 1 then "}" + tail else "," + Columns(parse, " ", pairs[1..], tail)
  }

  lemma FirstColumn(parse: string -> Option<Json>, before: string, pairs: seq<Pair>, tail: string)
    requires pairs != []
    ensures Columns(parse, before, pairs, tail) == before + PairText(parse, pairs[0]) + Behind(parse, pairs, tail)
  {
    hide PairText;
    var first := PairText(parse, pairs[0]);
    assert PairTexts(parse, pairs)[1..] == PairTexts(parse, pairs[1..]);
    if |pairs| > 1 {
      CommaApart(before, first, Join(PairTexts(parse, pairs[1..]), ", "), "}" + tail);
    }
  }

  lemma CommaApart(before: string, first: string, rest: string, end: string)
    ensures before + (first + ", " + rest) + end == before + first + ("," + (" " + rest + end))
  {
  }

  lemma FirstColumnParts(parse: string -> Option<Json>, before: string, pairs: seq<Pair>, tail: string)
    requires pairs != []
    ensures Columns(parse, before, pairs, tail) == before
      + (FieldKey(pairs[0].column) + (": " + (ValueLiteral(parse, pairs[0].value) + Behind(parse, pairs, tail))))
  {
    hide FieldKey, ValueLiteral, Columns, Behind;
    FirstColumn(parse, before, pairs, tail);
    JoinFive(before, FieldKey(pairs[0].column), ValueLiteral(parse, pairs[0].value), Behind(parse, pairs, tail));
  }

  lemma JoinFive(before: string, key: string, value: string, rest: string)
    ensures before + (key + ": " + value) + rest == before + (key + (": " + (value + rest)))
  {
  }

  /** What the columns from the first one on stand for. */
  function StrictColumns(parse: string -> Option<Json>, before: string, pairs: seq<Pair>): string {
    RenderMembers(StrictMembers(PairMembers(parse, before, pairs)))
  }

  function StrictBehind(parse: string -> Option<Json>, pairs: seq<Pair>): string
    requires pairs != []
  {
    if |pairs| == 1 then "" else "," + StrictColumns(parse, " ", pairs[1..])
  }

  lemma StrictFirst(parse: string -> Option<Json>, before: string, pairs: seq<Pair>)
    requires pairs != []
    ensures StrictColumns(parse, before, pairs)
      == RenderMember(StrictMember(PairMember(parse, before, pairs[0]))) + StrictBehind(parse, pairs)
  {
    hide RenderMember, StrictMember, PairMember;
    if |pairs| > 1 {
      assert !PairMembers(parse, " ", pairs[1..]).NoMembers?;
    } else {
      var text := RenderMember(StrictMember(PairMember(parse, before, pairs[0])));
      assert text + "" == text;
    }
  }

  lemma StrictMemberText(parse: string -> Option<Json>, before: string, pair: Pair)
    ensures RenderMember(StrictMember(PairMember(parse, before, pair)))
      == before + (KeyText(StrictKey(KeyTree(pair.column))) + (": " + Render(Strict(ValueTree(parse, pair.value)))))
  {
    hide KeyText, StrictKey, KeyTree, Render, Strict, ValueTree;
    var key, value := KeyText(StrictKey(KeyTree(pair.column))), Render(Strict(ValueTree(parse, pair.value)));
    assert before + (key + ("" + (":" + (" " + (value + ""))))) == before + (key + (": " + value));
  }

  lemma FirstDiffers(u: Unicode, prev: Option<char>, parse: string -> Option<Json>, before: string, pairs: seq<Pair>,
                     tail: string)
    requires Coherent(u) && IsSpace(before) && (prev == Some('{') || prev == Some(','))
    requires pairs != [] && GoodField(pairs[0].column) && !WholeValue(pairs[0].value)
    ensures !(StrictColumns(parse, before, pairs) <= RelaxFrom(u, Columns(parse, before, pairs, tail), prev))
  {
    hide *;
    var key, strict := KeyText(StrictKey(KeyTree(pairs[0].column))), Render(Strict(ValueTree(parse, pairs[0].value)));
    var rest := ValueLiteral(parse, pairs[0].value) + Behind(parse, pairs, tail);
    var read := RelaxFrom(u, rest, Some(':'));
    FirstColumnParts(parse, before, pairs, tail);
    HeadBecomes(u, prev, before, pairs[0].column, rest);
    StrictFirst(parse, before, pairs);
    StrictMemberText(parse, before, pairs[0]);
    ValueDiffers(u, Some(':'), parse, pairs[0].value, Behind(parse, pairs, tail));
    SamePrefix(": ", strict, read);
    SamePrefix(key, ": " + strict, ": " + read);
    SamePrefix(before, key + (": " + strict), key + (": " + read));
    PrefixOfConcat(before + (key + (": " + strict)), StrictBehind(parse, pairs), before + (key + (": " + read)));
  }

  lemma ColumnInk(u: Unicode, parse: string -> Option<Json>, pairs: seq<Pair>, tail: string)
    requires Coherent(u) && pairs != [] && GoodField(pairs[0].column)
    ensures NextInk(Columns(parse, " ", pairs, tail)) !in {Some(']'), Some('}')}
  {
    hide FieldKey, ValueLiteral, Columns, Coherent, GoodField, KeyTree, KeyText, WfKey;
    FirstColumnParts(parse, " ", pairs, tail);
    KeyOfField(u, pairs[0].column);
    KeyHead(u, KeyTree(pairs[0].column));
    SpacedInk(" ", FieldKey(pairs[0].column),
              ": " + (ValueLiteral(parse, pairs[0].value) + Behind(parse, pairs, tail)));
  }

  lemma CommaKept(u: Unicode, prev: Option<char>, rest: string)
    requires Coherent(u) && NextInk(rest) !in {Some(']'), Some('}')}
    ensures RelaxFrom(u, "," + rest, prev) == "," + RelaxFrom(u, rest, Some(','))
  {
    hide RelaxFrom, NextInk, Coherent;
    CommaBecomes(u, prev, rest);
    assert LastInk(prev, ",") == Some(',');
  }

  /** A column whose value is whole is passed, and the next one comes after its comma. */
  lemma FirstPassed(u: Unicode, prev: Option<char>, parse: string -> Option<Json>, before: string, pairs: seq<Pair>,
                    tail: string)
    requires Coherent(u) && ReadsJson(u, parse) && IsSpace(before) && (prev == Some('{') || prev == Some(','))
    requires |pairs| > 1 && GoodPair(pairs[0]) && GoodField(pairs[1].column)
    ensures RelaxFrom(u, Columns(parse, before, pairs, tail), prev)
      == RenderMember(StrictMember(PairMember(parse, before, pairs[0])))
         + ("," + RelaxFrom(u, Columns(parse, " ", pairs[1..], tail), Some(',')))
  {
    hide RelaxFrom, RenderMember, StrictMember, Columns, PairText, Coherent, ReadsJson, GoodPair, GoodField, LastInk,
         AfterValue, WfMember, NextInk;
    var m := PairMember(parse, before, pairs[0]);
    var rest := Columns(parse, " ", pairs[1..], tail);
    FirstColumn(parse, before, pairs, tail);
    PairMemberText(u, parse, before, pairs[0]);
    SpaceThenMark("", ',', rest);
    assert "" + ([','] + rest) == "," + rest;
    MemberBecomes(u, prev, m, "," + rest);
    ColumnInk(u, parse, pairs[1..], tail);
    CommaKept(u, LastInk(prev, RenderMember(StrictMember(m))), rest);
  }

  /** With a value that is not whole among them, the columns are not read as they stand. */
  lemma {:induction false} ColumnsDiffer(u: Unicode, prev: Option<char>, parse: string -> Option<Json>, before: string,
                                         pairs: seq<Pair>, tail: string)
    requires Coherent(u) && ReadsJson(u, parse) && IsSpace(before) && (prev == Some('{') || prev == Some(','))
    requires GoodFields(pairs) && !WholePairs(pairs)
    ensures !(StrictColumns(parse, before, pairs) <= RelaxFrom(u, Columns(parse, before, pairs, tail), prev))
    decreases |pairs|
  {
    hide RelaxFrom, Columns, StrictColumns, RenderMember, StrictMember, PairMember, Coherent, ReadsJson, GoodField,
         WholeValue;
    var first := pairs[0];
    if !WholeValue(first.value) {
      FirstDiffers(u, prev, parse, before, pairs, tail);
    } else {
      RestNotWhole(pairs);
      ColumnsDiffer(u, Some(','), parse, " ", pairs[1..], tail);
      FirstPassed(u, prev, parse, before, pairs, tail);
      StrictFirst(parse, before, pairs);
      var expected, read := StrictColumns(parse, " ", pairs[1..]),
        RelaxFrom(u, Columns(parse, " ", pairs[1..], tail), Some(','));
      SamePrefix(",", expected, read);
      SamePrefix(RenderMember(StrictMember(PairMember(parse, before, first))), "," + expected, "," + read);
    }
  }

  lemma RestNotWhole(pairs: seq<Pair>)
    requires pairs != [] && WholeValue(pairs[0].value) && !WholePairs(pairs)
    ensures |pairs| > 1 && !WholePairs(pairs[1..])
  {
    hide WholeValue;
    var i :| 0 <= i < |pairs| && !WholeValue(pairs[i].value);
    assert pairs[1..][i - 1] == pairs[i];
  }

  // ----- the objects of an edit

  lemma BraceBecomes(u: Unicode, prev: Option<char>, rest: string)
    requires Coherent(u)
    ensures RelaxFrom(u, "{" + rest, prev) == "{" + RelaxFrom(u, rest, Some('{'))
  {
    hide RelaxFrom, Coherent;
    PunctuationIsPlain(u, '{');
    PlainChar(u, prev, '{', rest);
    assert LastInk(prev, "{") == Some('{');
  }

  lemma ObjectDiffers(u: Unicode, prev: Option<char>, inside: string, out: string)
    requires Coherent(u) && !(out <= RelaxFrom(u, inside, Some('{')))
    ensures !("{" + (out + "}") <= RelaxFrom(u, "{" + inside, prev))
  {
    hide RelaxFrom, Coherent;
    BraceBecomes(u, prev, inside);
    PrefixOfConcat(out, "}", RelaxFrom(u, inside, Some('{')));
    SamePrefix("{", out + "}", RelaxFrom(u, inside, Some('{')));
  }

  lemma PairsDiffer(u: Unicode, prev: Option<char>, parse: string -> Option<Json>, pairs: seq<Pair>, tail: string)
    requires Coherent(u) && ReadsJson(u, parse) && GoodFields(pairs) && !WholePairs(pairs)
    ensures !(Render(Strict(PairsTree(parse, pairs))) <= RelaxFrom(u, PairsLiteral(parse, pairs) + tail, prev))
  {
    hide RelaxFrom, Coherent, ReadsJson, GoodFields, WholePairs, PairTexts, StrictMembers, RenderMembers, PairMembers;
    ColumnsDiffer(u, Some('{'), parse, "", pairs, tail);
    ObjectDiffers(u, prev, Columns(parse, "", pairs, tail), StrictColumns(parse, "", pairs));
    PairsText(Join(PairTexts(parse, pairs), ", "), tail);
  }

  lemma PairsText(text: string, tail: string)
    ensures "{" + text + "}" + tail == "{" + ("" + text + ("}" + tail))
  {
  }

  /** A filter is read as what it stands for exactly when each of its values is whole. */
  lemma PairsReadIff(u: Unicode, parse: string -> Option<Json>, pairs: seq<Pair>)
    requires Coherent(u) && ReadsJson(u, parse) && GoodFields(pairs)
    ensures Relax(u, PairsLiteral(parse, pairs)) == Render(Strict(PairsTree(parse, pairs))) <==> WholePairs(pairs)
  {
    hide RelaxFrom, Coherent, ReadsJson, PairsLiteral, PairsTree, Render, Strict, GoodField, WholeValue;
    var text := PairsLiteral(parse, pairs);
    if WholePairs(pairs) {
      PairsTreeText(u, parse, pairs);
      RelaxWhole(u, PairsTree(parse, pairs));
    } else {
      PairsDiffer(u, None, parse, pairs, "");
      assert text + "" == text;
    }
  }

  lemma RelaxWhole(u: Unicode, v: Json)
    requires Coherent(u) && Wf(u, v)
    ensures Relax(u, Render(v)) == Render(Strict(v))
  {
    hide RelaxFrom, Relax, Coherent, Render, Strict;
    RelaxGivesStrict(u, "", v, "");
    assert "" + (Render(v) + "") == Render(v) && "" + (Render(Strict(v)) + "") == Render(Strict(v));
  }

  /** What an update stands for. */
  lemma StrictSetText(parse: string -> Option<Json>, pairs: seq<Pair>)
    ensures Render(Strict(SetTree(parse, pairs)))
      == "{" + ("" + (KeyText(StrictKey(KeyTree("$set"))) + (": " + Render(Strict(PairsTree(parse, pairs))))) + "}")
  {
    hide PairsTree, Render, Strict, KeyText;
    SetIsBare();
    var m := SetMember(parse, pairs);
    StrictObjectText(LastMember(m));
    var key, value := KeyText(StrictKey(Bare("$set"))), Render(Strict(PairsTree(parse, pairs)));
    assert "" + (key + ("" + (":" + (" " + (value + ""))))) == "" + (key + (": " + value));
  }

  lemma StrictObjectText(members: Members)
    ensures Render(Strict(Obj(members))) == "{" + (RenderMembers(StrictMembers(members)) + "}")
  {
  }

  lemma SetDiffers(u: Unicode, parse: string -> Option<Json>, pairs: seq<Pair>)
    requires Coherent(u) && ReadsJson(u, parse) && GoodFields(pairs) && !WholePairs(pairs)
    ensures !(Render(Strict(SetTree(parse, pairs))) <= Relax(u, SetText(parse, pairs)))
  {
    hide RelaxFrom, Coherent, ReadsJson, GoodFields, WholePairs, PairsTree, SetTree, PairsLiteral, Render, Strict,
         KeyTree, KeyText, StrictKey, FieldKey;
    var text := PairsLiteral(parse, pairs);
    var rest := text + "}";
    var key, value := KeyText(StrictKey(KeyTree("$set"))), Render(Strict(PairsTree(parse, pairs)));
    var read := RelaxFrom(u, rest, Some(':'));
    PairsDiffer(u, Some(':'), parse, pairs, "}");
    SetKey();
    HeadBecomes(u, Some('{'), "", "$set", rest);
    SamePrefix(": ", value, read);
    SamePrefix(key, ": " + value, ": " + read);
    SamePrefix("", key + (": " + value), key + (": " + read));
    StrictSetText(parse, pairs);
    ObjectDiffers(u, None, "" + (FieldKey("$set") + (": " + rest)), "" + (key + (": " + value)));
    SetParts(text);
  }

  lemma SetKey()
    ensures FieldKey("$set") == "$set" && GoodField("$set")
  {
    SetIsBare();
  }

  lemma SetParts(text: string)
    ensures "{$set: " + text + "}" == "{" + ("" + ("$set" + (": " + (text + "}"))))
  {
  }

  /** A change is read as what it stands for exactly when each of its values is whole. */
  lemma SetReadIff(u: Unicode, parse: string -> Option<Json>, pairs: seq<Pair>)
    requires Coherent(u) && ReadsJson(u, parse) && GoodFields(pairs)
    ensures Relax(u, SetText(parse, pairs)) == Render(Strict(SetTree(parse, pairs))) <==> WholePairs(pairs)
  {
    hide Relax, Coherent, ReadsJson, SetText, SetTree, Render, Strict, GoodField, WholeValue;
    if WholePairs(pairs) {
      SetTreeText(u, parse, pairs);
      SetTextIs(parse, pairs);
      RelaxWhole(u, SetTree(parse, pairs));
    } else {
      SetDiffers(u, parse, pairs);
    }
  }

  lemma SetTextIs(parse: string -> Option<Json>, pairs: seq<Pair>)
    ensures SetText(parse, pairs) == "{$set: " + PairsLiteral(parse, pairs) + "}"
  {
  }
}
