/** The main result on relaxed JSON: relaxing the text of a tree gives the text of its strict form. */
module RelaxTree {
  import opened Text
  import opened JsonSyntax
  import opened RelaxJson
  import opened RelaxMeaning

  // ----- numbers

  predicate InNumber(c: char) {
    IsDigit(c) || c == '-' || c == '+' || c == '.' || c == 'e' || c == 'E'
  }

  predicate NumberText(s: string) {
    forall i | 0 <= i < |s| :: InNumber(s[i])
  }

  lemma NumberIsText(s: string)
    requires IsNumber(s)
    ensures NumberText(s) && s != "" && (IsDigit(s[0]) || s[0] == '-')
  {
    var digits := if s[0] == '-' then s[1..] else s;
    var n := Digits(digits);
    FractionIsText(digits[n..]);
    assert digits == digits[..n] + digits[n..];
  }

  lemma ExponentIsText(s: string)
    requires IsExponent(s)
    ensures NumberText(s)
  {
    if s != "" {
      var digits := if s[1] == '+' || s[1] == '-' then s[2..] else s[1..];
      assert forall i | |s| - |digits| <= i < |s| :: s[i] == digits[i - (|s| - |digits|)];
    }
  }

  lemma FractionIsText(s: string)
    requires IsFraction(s)
    ensures NumberText(s)
  {
    if s != "" && s[0] == '.' {
      var n := Digits(s[1..]);
      ExponentIsText(s[1..][n..]);
      assert s == [s[0]] + (s[1..][..n] + s[1..][n..]);
    } else {
      ExponentIsText(s);
    }
  }

  lemma NumberWord(u: Unicode, prev: Option<char>, word: string, rest: string)
    requires Coherent(u) && IsIdentifier(u, word) && (word[0] == 'e' || word[0] == 'E')
    requires (rest != "" ==> !InWord(u, rest[0])) && NextInk(rest) != Some(':')
    ensures Becomes(u, prev, word, word, rest)
  {
    hide CallArgument, NextInk, LastInk, RelaxFrom, Coherent, IsIdentifier;
    assert !IsCtorName(word);
    WordBecomes(u, prev, word, word, rest);
  }

  /** The letters of an exponent are a word that stays as it is. */
  lemma ExponentWord(u: Unicode, prev: Option<char>, s: string, tail: string, n: nat)
    requires Coherent(u) && NumberText(s) && AfterValue(tail) && s != "" && (s[0] == 'e' || s[0] == 'E')
    requires n == WordLength(u, s)
    ensures n > 0 && Becomes(u, prev, s[..n], s[..n], s[n..] + tail)
  {
    hide CallArgument, LastInk, RelaxFrom;
    LetterIsWord(u, s[0]);
    var rest := s[n..] + tail;
    if n < |s| {
      assert rest[0] == s[n];
    } else {
      assert rest == tail;
      if tail != "" {
        NotInWord(u, tail);
      }
    }
    NumberWord(u, prev, s[..n], rest);
  }

  lemma NumberMark(u: Unicode, prev: Option<char>, c: char, tail: string)
    requires Coherent(u) && InNumber(c) && c != 'e' && c != 'E'
    ensures Becomes(u, prev, [c], [c], tail)
  {
    PunctuationIsPlain(u, c);
    PlainChar(u, prev, c, tail);
  }

  lemma {:induction false} NumberBecomes(u: Unicode, prev: Option<char>, s: string, tail: string)
    requires Coherent(u) && NumberText(s) && AfterValue(tail)
    ensures Becomes(u, prev, s, s, tail)
    decreases |s|
  {
    hide Becomes, LastInk, Coherent, AfterValue;
    if s == "" {
      NothingStays(u, prev, tail);
    } else {
      var n := if s[0] == 'e' || s[0] == 'E' then WordLength(u, s) else 1;
      var head, rest := s[..n], s[n..];
      assert s == head + rest;
      if s[0] == 'e' || s[0] == 'E' {
        ExponentWord(u, prev, s, tail, n);
      } else {
        assert head == [s[0]];
        NumberMark(u, prev, s[0], rest + tail);
      }
      NumberBecomes(u, LastInk(prev, head), rest, tail);
      Chain(u, prev, head, head, rest, rest, tail);
    }
  }

  // ----- the first and the next character

  lemma ValueHead(u: Unicode, v: Json)
    requires Coherent(u) && Wf(u, v)
    ensures Render(v) != "" && !IsWhitespace(Render(v)[0]) && Render(v)[0] !in "]}:,"
  {
    match v
    case Str(_) =>
    case Word(_) =>
    case Num(number) => NumberIsText(number);
    case Arr(_) =>
    case Obj(_) =>
    case Ctor(name, _, _, _, _) =>
      CtorNameIsWord(u, name);
      WordIsNotSpace(u, name[0]);
  }

  lemma InkOf(s: string, rest: string)
    requires s != "" && !IsWhitespace(s[0])
    ensures NextInk(s + rest) == Some(s[0])
  {
  }

  lemma SpacedInk(before: string, s: string, rest: string)
    requires IsSpace(before) && s != "" && !IsWhitespace(s[0])
    ensures NextInk(before + (s + rest)) == Some(s[0])
  {
    InkAfterSpace(before, s + rest);
    InkOf(s, rest);
  }

  lemma KeyHead(u: Unicode, key: Key)
    requires Coherent(u) && WfKey(u, key)
    ensures KeyText(key) != "" && !IsWhitespace(KeyText(key)[0]) && KeyText(key)[0] !in "]}:,"
  {
    match key
    case Bare(name) => WordIsNotSpace(u, name[0]);
    case Named(_) =>
  }

  lemma ValueInk(u: Unicode, before: string, v: Json, more: string, tail: string)
    requires Coherent(u) && Wf(u, v) && IsSpace(before)
    ensures NextInk(before + (Render(v) + more) + tail) !in {None, Some(']'), Some('}'), Some(':')}
  {
    hide Render, NextInk;
    ValueHead(u, v);
    SpacedInk(before, Render(v), more + tail);
    assert before + (Render(v) + more) + tail == before + (Render(v) + (more + tail));
  }

  lemma ItemsInk(u: Unicode, items: Items, tail: string)
    requires Coherent(u) && WfItems(u, items)
    ensures items.NoItems? ==> NextInk(RenderItems(items) + tail) == NextInk(tail)
    ensures !items.NoItems? ==> NextInk(RenderItems(items) + tail) !in {None, Some(']'), Some('}'), Some(':')}
  {
    hide NextInk, Render;
    match items
    case NoItems(space) => InkAfterSpace(space, tail);
    case LastItem(before, value, after) => ValueInk(u, before, value, after, tail);
    case Item(before, value, after, rest) => ValueInk(u, before, value, after + ("," + RenderItems(rest)), tail);
  }

  lemma MemberInk(u: Unicode, m: Member, tail: string)
    requires Coherent(u) && WfMember(u, m)
    ensures NextInk(RenderMember(m) + tail) !in {None, Some(']'), Some('}'), Some(':')}
  {
    hide Render;
    KeyHead(u, m.key);
    var more := m.colon + (":" + (m.gap + (Render(m.value) + m.after)));
    SpacedInk(m.before, KeyText(m.key), more + tail);
    assert RenderMember(m) + tail == m.before + (KeyText(m.key) + (more + tail));
  }

  lemma MembersInk(u: Unicode, members: Members, tail: string)
    requires Coherent(u) && WfMembers(u, members)
    ensures members.NoMembers? ==> NextInk(RenderMembers(members) + tail) == NextInk(tail)
    ensures !members.NoMembers? ==> NextInk(RenderMembers(members) + tail) !in {None, Some(']'), Some('}'), Some(':')}
  {
    hide RenderMember;
    match members
    case NoMembers(space) => InkAfterSpace(space, tail);
    case LastMember(m) => MemberInk(u, m, tail);
    case MoreMembers(m, rest) =>
      var more := "," + RenderMembers(rest);
      MemberInk(u, m, more + tail);
      assert RenderMember(m) + more + tail == RenderMember(m) + (more + tail);
  }

  lemma SpaceThenMark(space: string, c: char, rest: string)
    requires IsSpace(space) && (c == ']' || c == '}' || c == ',')
    ensures AfterValue(space + ([c] + rest)) && NextInk(space + ([c] + rest)) == Some(c)
  {
    SpaceThenEnds(space, [c] + rest);
    InkAfterSpace(space, [c] + rest);
  }

  // ----- trees

  /** Whitespace, then something that changes, then the rest. */
  lemma Padded(u: Unicode, prev: Option<char>, space: string, a: string, out: string, b: string, more: string,
               tail: string)
    requires Coherent(u) && IsSpace(space)
    requires Becomes(u, prev, a, out, b + tail) && Becomes(u, LastInk(prev, out), b, more, tail)
    ensures Becomes(u, prev, space + (a + b), space + (out + more), tail)
  {
    hide Becomes, LastInk, Coherent;
    Chain(u, prev, a, out, b, more, tail);
    SpaceStays(u, prev, space, (a + b) + tail);
    Chain(u, prev, space, space, a + b, out + more, tail);
  }

  lemma SpaceThen(u: Unicode, prev: Option<char>, space: string, b: string, more: string, tail: string)
    requires Coherent(u) && IsSpace(space) && Becomes(u, prev, b, more, tail)
    ensures Becomes(u, prev, space + b, space + more, tail)
  {
    hide Becomes, LastInk, Coherent;
    SpaceStays(u, prev, space, b + tail);
    Chain(u, prev, space, space, b, more, tail);
  }

  lemma MarkThen(u: Unicode, prev: Option<char>, c: char, b: string, more: string, tail: string)
    requires Coherent(u) && c in "[]{}:" && Becomes(u, Some(c), b, more, tail)
    ensures Becomes(u, prev, [c] + b, [c] + more, tail)
  {
    hide Becomes, Coherent;
    PunctuationIsPlain(u, c);
    PlainChar(u, prev, c, b + tail);
    assert LastInk(prev, [c]) == Some(c);
    Chain(u, prev, [c], [c], b, more, tail);
  }

  lemma MarkEnds(u: Unicode, prev: Option<char>, c: char, tail: string)
    requires Coherent(u) && c in "[]{}:"
    ensures Becomes(u, prev, [c], [c], tail)
  {
    PunctuationIsPlain(u, c);
    PlainChar(u, prev, c, tail);
  }

  lemma BracketsAround(u: Unicode, prev: Option<char>, open: char, inside: string, out: string, close: char,
                       tail: string)
    requires Coherent(u) && open in "[{" && close in "]}"
    requires Becomes(u, Some(open), inside, out, [close] + tail)
    ensures Becomes(u, prev, [open] + (inside + [close]), [open] + (out + [close]), tail)
  {
    hide Becomes, LastInk, Coherent;
    MarkEnds(u, LastInk(Some(open), out), close, tail);
    Chain(u, Some(open), inside, out, [close], [close], tail);
    MarkThen(u, prev, open, inside + [close], out + [close], tail);
  }

  lemma KeptComma(u: Unicode, prev: Option<char>, b: string, more: string, tail: string)
    requires Coherent(u) && NextInk(b + tail) != Some(']') && NextInk(b + tail) != Some('}')
    requires Becomes(u, Some(','), b, more, tail)
    ensures Becomes(u, prev, "," + b, "," + more, tail)
  {
    hide Becomes, NextInk, Coherent;
    CommaBecomes(u, prev, b + tail);
    assert LastInk(prev, ",") == Some(',');
    Chain(u, prev, ",", ",", b, more, tail);
  }

  lemma DroppedComma(u: Unicode, prev: Option<char>, space: string, tail: string)
    requires Coherent(u) && IsSpace(space) && (NextInk(tail) == Some(']') || NextInk(tail) == Some('}'))
    ensures Becomes(u, prev, "," + space, space, tail)
  {
    hide Becomes, NextInk, Coherent, LastInk;
    InkAfterSpace(space, tail);
    CommaBecomes(u, prev, space + tail);
    NothingStays(u, prev, tail);
    SpaceStays(u, prev, space, tail);
    Chain(u, prev, ",", "", space, space, tail);
    assert "" + space == space;
  }

  lemma CommaLeft(a: string, space: string, tail: string)
    ensures a + ("," + space) + tail == a + ("," + (space + tail))
  {
  }

  /** Relaxing the text of a value gives the text of its strict form, whatever was written before
      and whatever comes after it. */
  lemma {:induction false} ValueBecomes(u: Unicode, prev: Option<char>, v: Json, tail: string)
    requires Coherent(u) && Wf(u, v) && AfterValue(tail)
    ensures Becomes(u, prev, Render(v), Render(Strict(v)), tail)
    decreases v, 0
  {
    hide Becomes, AfterValue, Coherent;
    match v
    case Str(lit) => LiteralBecomes(u, prev, lit, tail);
    case Word(word) => ConstantBecomes(u, prev, word, tail);
    case Num(number) =>
      NumberIsText(number);
      NumberBecomes(u, prev, number, tail);
    case Arr(items) =>
      ItemsBecome(u, Some('['), items, tail);
      BracketsAround(u, prev, '[', RenderItems(items), RenderItems(StrictItems(items)), ']', tail);
    case Obj(members) =>
      MembersBecome(u, Some('{'), members, tail);
      BracketsAround(u, prev, '{', RenderMembers(members), RenderMembers(StrictMembers(members)), '}', tail);
    case Ctor(_, _, _, _, _) => CtorBecomes(u, prev, v, tail);
  }

  lemma {:induction false} ItemsBecome(u: Unicode, prev: Option<char>, items: Items, tail: string)
    requires Coherent(u) && WfItems(u, items)
    ensures Becomes(u, prev, RenderItems(items), RenderItems(StrictItems(items)), "]" + tail)
    decreases items, 0
  {
    hide Becomes, LastInk, Coherent, AfterValue, NextInk, Render, Strict;
    match items
    case NoItems(space) => SpaceStays(u, prev, space, "]" + tail);
    case LastItem(before, value, after) =>
      SpaceThenMark(after, ']', tail);
      ValueBecomes(u, prev, value, after + ("]" + tail));
      SpaceStays(u, LastInk(prev, Render(Strict(value))), after, "]" + tail);
      Padded(u, prev, before, Render(value), Render(Strict(value)), after, after, "]" + tail);
    case Item(before, value, after, rest) =>
      var more, out := "," + RenderItems(rest), AfterItem(rest);
      var ink := LastInk(prev, Render(Strict(value)));
      RestBecomes(u, ink, rest, tail);
      SpaceThen(u, ink, after, more, out, "]" + tail);
      SpaceThenMark(after, ',', RenderItems(rest) + ("]" + tail));
      CommaLeft(after, RenderItems(rest), "]" + tail);
      ValueBecomes(u, prev, value, after + more + ("]" + tail));
      Padded(u, prev, before, Render(value), Render(Strict(value)), after + more, after + out, "]" + tail);
      assert RenderItems(StrictItems(items)) == before + (Render(Strict(value)) + (after + out));
  }

  /** What the comma after an item and the items behind it become. */
  function AfterItem(rest: Items): string {
    if rest.NoItems? then rest.space else "," + RenderItems(StrictItems(rest))
  }

  lemma {:induction false} RestBecomes(u: Unicode, prev: Option<char>, rest: Items, tail: string)
    requires Coherent(u) && WfItems(u, rest)
    ensures Becomes(u, prev, "," + RenderItems(rest), AfterItem(rest), "]" + tail)
    decreases rest, 1
  {
    hide Becomes, LastInk, Coherent;
    if rest.NoItems? {
      DroppedComma(u, prev, rest.space, "]" + tail);
    } else {
      ItemsInk(u, rest, "]" + tail);
      ItemsBecome(u, Some(','), rest, tail);
      KeptComma(u, prev, RenderItems(rest), RenderItems(StrictItems(rest)), "]" + tail);
    }
  }

  /** From a key's colon to the end of the member. */
  function FromColon(m: Member): string {
    m.colon + (":" + (m.gap + (Render(m.value) + m.after)))
  }

  lemma ColonLeft(m: Member, tail: string)
    ensures FromColon(m) + tail == m.colon + (":" + (m.gap + (Render(m.value) + m.after) + tail))
  {
    hide Render;
  }

  lemma {:induction false} MemberBecomes(u: Unicode, prev: Option<char>, m: Member, tail: string)
    requires Coherent(u) && WfMember(u, m) && (prev == Some('{') || prev == Some(','))
    requires AfterValue(m.after + tail)
    ensures Becomes(u, prev, RenderMember(m), RenderMember(StrictMember(m)), tail)
    decreases m, 0
  {
    hide Becomes, LastInk, Coherent, AfterValue, Render, Strict, StrictKey, KeyText;
    var value, strict := Render(m.value), Render(Strict(m.value));
    var ink := LastInk(prev, KeyText(StrictKey(m.key)));
    ValueBecomes(u, Some(':'), m.value, m.after + tail);
    SpaceStays(u, LastInk(Some(':'), strict), m.after, tail);
    Padded(u, Some(':'), m.gap, value, strict, m.after, m.after, tail);
    MarkThen(u, ink, ':', m.gap + (value + m.after), m.gap + (strict + m.after), tail);
    SpaceThen(u, ink, m.colon, ":" + (m.gap + (value + m.after)), ":" + (m.gap + (strict + m.after)), tail);
    ColonLeft(m, tail);
    KeyBecomes(u, prev, m.key, m.colon, m.gap + (value + m.after) + tail);
    Padded(u, prev, m.before, KeyText(m.key), KeyText(StrictKey(m.key)), FromColon(m), FromColon(StrictMember(m)),
           tail);
  }

  lemma {:induction false} MembersBecome(u: Unicode, prev: Option<char>, members: Members, tail: string)
    requires Coherent(u) && WfMembers(u, members) && (prev == Some('{') || prev == Some(','))
    ensures Becomes(u, prev, RenderMembers(members), RenderMembers(StrictMembers(members)), "}" + tail)
    decreases members, 0
  {
    hide Becomes, LastInk, Coherent, AfterValue, NextInk, RenderMember, StrictMember;
    match members
    case NoMembers(space) => SpaceStays(u, prev, space, "}" + tail);
    case LastMember(m) =>
      MemberSpace(u, m);
      SpaceThenMark(m.after, '}', tail);
      MemberBecomes(u, prev, m, "}" + tail);
    case MoreMembers(m, rest) =>
      var more, out := "," + RenderMembers(rest), AfterMember(rest);
      MemberSpace(u, m);
      OtherMembersBecome(u, LastInk(prev, RenderMember(StrictMember(m))), rest, tail);
      SpaceThenMark(m.after, ',', RenderMembers(rest) + ("}" + tail));
      CommaRight(RenderMembers(rest), "}" + tail);
      MemberBecomes(u, prev, m, more + ("}" + tail));
      Chain(u, prev, RenderMember(m), RenderMember(StrictMember(m)), more, out, "}" + tail);
      StrictMoreText(m, rest);
  }

  lemma CommaRight(a: string, tail: string)
    ensures "," + a + tail == "," + (a + tail)
  {
  }

  lemma MemberSpace(u: Unicode, m: Member)
    requires WfMember(u, m)
    ensures IsSpace(m.after)
  {
  }

  function AfterMember(rest: Members): string {
    if rest.NoMembers? then rest.space else "," + RenderMembers(StrictMembers(rest))
  }

  lemma LongerMember(m: Member, space: string)
    ensures RenderMember(m.(after := m.after + space)) == RenderMember(m) + space
  {
    hide Render;
    var v := Render(m.value);
    assert v + (m.after + space) == v + m.after + space;
    assert m.gap + (v + m.after + space) == m.gap + (v + m.after) + space;
    assert m.colon + (":" + (m.gap + (v + m.after) + space)) == m.colon + (":" + (m.gap + (v + m.after))) + space;
  }

  lemma StrictMoreText(m: Member, rest: Members)
    ensures RenderMembers(StrictMembers(MoreMembers(m, rest))) == RenderMember(StrictMember(m)) + AfterMember(rest)
  {
    hide RenderMember;
    if rest.NoMembers? {
      LongerMember(StrictMember(m), rest.space);
    }
  }

  lemma {:induction false} OtherMembersBecome(u: Unicode, prev: Option<char>, rest: Members, tail: string)
    requires Coherent(u) && WfMembers(u, rest)
    ensures Becomes(u, prev, "," + RenderMembers(rest), AfterMember(rest), "}" + tail)
    decreases rest, 1
  {
    hide Becomes, LastInk, Coherent;
    if rest.NoMembers? {
      DroppedComma(u, prev, rest.space, "}" + tail);
    } else {
      MembersInk(u, rest, "}" + tail);
      MembersBecome(u, Some(','), rest, tail);
      KeptComma(u, prev, RenderMembers(rest), RenderMembers(StrictMembers(rest)), "}" + tail);
    }
  }

  // ----- the main results

  /** Relaxing the text of any relaxed tree, whitespace around it included, gives the text of its
      strict form; by `StrictKeeps` that is JSON in the sense of RFC 8259 and means the same. */
  lemma RelaxGivesStrict(u: Unicode, before: string, v: Json, after: string)
    requires Coherent(u) && Wf(u, v) && IsSpace(before) && IsSpace(after)
    ensures Relax(u, before + (Render(v) + after)) == before + (Render(Strict(v)) + after)
  {
    hide LastInk, Coherent, Render, Strict, RelaxFrom;
    SpaceAfterValue(after);
    ValueBecomes(u, None, v, after + "");
    SpaceStays(u, LastInk(None, Render(Strict(v))), after, "");
    Padded(u, None, before, Render(v), Render(Strict(v)), after, after, "");
    var s, out := before + (Render(v) + after), before + (Render(Strict(v)) + after);
    RelaxNothing(u, LastInk(None, out));
    assert s + "" == s && out + "" == out;
  }

  lemma RelaxNothing(u: Unicode, prev: Option<char>)
    ensures RelaxFrom(u, "", prev) == ""
  {
  }

  lemma SpaceAfterValue(after: string)
    requires IsSpace(after)
    ensures AfterValue(after + "")
  {
    SpaceThenEnds(after, "");
    InkAfterSpace(after, "");
  }

  /** Strict JSON passes through unchanged. */
  lemma StrictIsUnchanged(u: Unicode, before: string, v: Json, after: string)
    requires Coherent(u) && Wf(u, v) && IsStrict(v) && IsSpace(before) && IsSpace(after)
    ensures Relax(u, before + (Render(v) + after)) == before + (Render(v) + after)
  {
    RelaxGivesStrict(u, before, v, after);
    StrictIsItself(u, v);
  }
}
