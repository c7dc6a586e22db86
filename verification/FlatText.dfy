/** What the text boxes show, as one string with a cursor offset, and what each key does to it. */
module FlatText {

  datatype Key = Char(c: char) | Enter | Backspace | Delete | Left | Right | Up | Down | Home | End | Unused

  /** A text and a cursor between its characters. */
  datatype View = View(text: string, offset: nat) {
    predicate Valid() {
      offset <= |text|
    }
  }

  function Insert(v: View, s: string): View
    requires v.Valid()
  {
    View(v.text[..v.offset] + s + v.text[v.offset..], v.offset + |s|)
  }

  /** `v` without the character at `at`, which the cursor ends up in front of. */
  function Remove(v: View, at: nat): View
    requires at < |v.text|
  {
    View(v.text[..at] + v.text[at + 1..], at)
  }

  function RemoveBefore(v: View): View
    requires v.Valid()
  {
    if v.offset > 0 then Remove(v, v.offset - 1) else v
  }

  function RemoveAfter(v: View): View
    requires v.Valid()
  {
    if v.offset < |v.text| then Remove(v, v.offset) else v
  }

  /** Where the line around `offset` starts: after the last newline before it. */
  function LineStart(text: string, offset: nat): (r: nat)
    requires offset <= |text|
    ensures r <= offset
  {
    if offset == 0 || text[offset - 1] == '\n' then offset else LineStart(text, offset - 1)
  }

  /** Where the line around `offset` ends: at the next newline, or at the end. */
  function LineEnd(text: string, offset: nat): (r: nat)
    requires offset <= |text|
    ensures offset <= r <= |text|
    decreases |text| - offset
  {
    if offset == |text| || text[offset] == '\n' then offset else LineEnd(text, offset + 1)
  }

  function Min(a: nat, b: nat): nat {
    if a <= b then a else b
  }

  /** One line up or down keeps the distance from the line start, as far as that line reaches. */
  function LineUp(v: View): nat
    requires v.Valid()
  {
    var start := LineStart(v.text, v.offset);
    if start == 0 then v.offset
    else
      var above := LineStart(v.text, start - 1);
      above + Min(v.offset - start, start - 1 - above)
  }

  function LineDown(v: View): nat
    requires v.Valid()
  {
    var end := LineEnd(v.text, v.offset);
    if end == |v.text| then v.offset
    else end + 1 + Min(v.offset - LineStart(v.text, v.offset), LineEnd(v.text, end + 1) - (end + 1))
  }

  /** The effect of one key; `chord` says that Control or Alt is held. */
  function Press(v: View, key: Key, chord: bool): (r: View)
    requires v.Valid()
    ensures r.Valid()
  {
    match key
    case Char(c) => if chord then v else Insert(v, [c])
    case Enter => Insert(v, "\n")
    case Backspace => RemoveBefore(v)
    case Delete => RemoveAfter(v)
    case Left => if v.offset > 0 then v.(offset := v.offset - 1) else v
    case Right => if v.offset < |v.text| then v.(offset := v.offset + 1) else v
    case Up => v.(offset := LineUp(v))
    case Down => v.(offset := LineDown(v))
    case Home => v.(offset := LineStart(v.text, v.offset))
    case End => v.(offset := LineEnd(v.text, v.offset))
    case Unused => v
  }

  function PressAll(v: View, keys: seq<(Key, bool)>): (r: View)
    requires v.Valid()
    ensures r.Valid()
    decreases |keys|
  {
    if keys == [] then v else PressAll(Press(v, keys[0].0, keys[0].1), keys[1..])
  }

  function Typed(s: string): seq<(Key, bool)> {
    if s == [] then [] else [(if s[0] == '\n' then Enter else Char(s[0]), false)] + Typed(s[1..])
  }

  function Times(key: Key, n: nat): seq<(Key, bool)> {
    if n == 0 then [] else [(key, false)] + Times(key, n - 1)
  }

  /** Typing a text key by key is pasting it. */
  lemma {:induction false} TypingIsPasting(v: View, s: string)
    requires v.Valid()
    ensures PressAll(v, Typed(s)) == Insert(v, s)
    decreases |s|
  {
    if s == [] {
      assert v.text[..v.offset] + s + v.text[v.offset..] == v.text;
    } else {
      var w := Insert(v, [s[0]]);
      TypingIsPasting(w, s[1..]);
      InsertTwice(v, [s[0]], s[1..]);
      assert [s[0]] + s[1..] == s;
      assert Typed(s)[1..] == Typed(s[1..]);
    }
  }

  lemma InsertTwice(v: View, a: string, b: string)
    requires v.Valid()
    ensures Insert(Insert(v, a), b) == Insert(v, a + b)
  {
    var w := Insert(v, a);
    assert w.text[..w.offset] == v.text[..v.offset] + a;
    assert w.text[w.offset..] == v.text[v.offset..];
  }

  /** Backspacing as often as characters were inserted takes back exactly the insertion. */
  lemma {:induction false} BackspaceUndoesInsert(v: View, s: string)
    requires v.Valid()
    ensures PressAll(Insert(v, s), Times(Backspace, |s|)) == v
    decreases |s|
  {
    if s == [] {
      assert v.text[..v.offset] + s + v.text[v.offset..] == v.text;
    } else {
      var n := |s| - 1;
      var w := Insert(v, s);
      assert Remove(w, w.offset - 1) == Insert(v, s[..n]) by {
        assert w.text[..w.offset - 1] == v.text[..v.offset] + s[..n];
        assert w.text[w.offset..] == v.text[v.offset..];
      }
      BackspaceUndoesInsert(v, s[..n]);
      assert Times(Backspace, |s|)[1..] == Times(Backspace, n);
    }
  }

  /** Delete is a step right and a Backspace. */
  lemma DeleteIsRightBackspace(v: View)
    requires v.Valid() && v.offset < |v.text|
    ensures Press(v, Delete, false) == Press(Press(v, Right, false), Backspace, false)
  {
  }

  // ----- moving the cursor

  lemma {:induction false} StartIsFirst(text: string, offset: nat)
    requires offset <= |text|
    ensures var r := LineStart(text, offset);
      (r == 0 || text[r - 1] == '\n') && forall i | r <= i < offset :: text[i] != '\n'
  {
    if offset > 0 && text[offset - 1] != '\n' {
      StartIsFirst(text, offset - 1);
    }
  }

  lemma {:induction false} EndIsLast(text: string, offset: nat)
    requires offset <= |text|
    ensures var r := LineEnd(text, offset);
      (r == |text| || text[r] == '\n') && forall i | offset <= i < r :: text[i] != '\n'
    decreases |text| - offset
  {
    if offset < |text| && text[offset] != '\n' {
      EndIsLast(text, offset + 1);
    }
  }

  /** Home goes back to the start of the line and no further: no newline is passed, and in front of the
      cursor there is one, or nothing. */
  lemma HomeStaysInLine(v: View, chord: bool)
    requires v.Valid()
    ensures var w := Press(v, Home, chord);
      && w.text == v.text && w.offset <= v.offset
      && (w.offset == 0 || v.text[w.offset - 1] == '\n')
      && forall i | w.offset <= i < v.offset :: v.text[i] != '\n'
  {
    StartIsFirst(v.text, v.offset);
  }

  /** End goes on to the end of the line and no further. */
  lemma EndStaysInLine(v: View, chord: bool)
    requires v.Valid()
    ensures var w := Press(v, End, chord);
      && w.text == v.text && v.offset <= w.offset
      && (w.offset == |v.text| || v.text[w.offset] == '\n')
      && forall i | v.offset <= i < w.offset :: v.text[i] != '\n'
  {
    EndIsLast(v.text, v.offset);
  }

  /** Left and right are one step each and undo each other, except at the edges of the text. */
  lemma LeftAndRight(v: View, chord: bool)
    requires v.Valid()
    ensures v.offset < |v.text| ==>
      Press(v, Right, chord) == View(v.text, v.offset + 1) && Press(Press(v, Right, chord), Left, chord) == v
    ensures v.offset > 0 ==>
      Press(v, Left, chord) == View(v.text, v.offset - 1) && Press(Press(v, Left, chord), Right, chord) == v
    ensures v.offset == |v.text| ==> Press(v, Right, chord) == v
    ensures v.offset == 0 ==> Press(v, Left, chord) == v
  {
  }

  /** A character typed with Control or Alt changes nothing; without, it is inserted. */
  lemma ChordsTypeNothing(v: View, c: char)
    requires v.Valid()
    ensures Press(v, Char(c), true) == v
    ensures Press(v, Char(c), false) == View(v.text[..v.offset] + [c] + v.text[v.offset..], v.offset + 1)
    ensures forall chord :: Press(v, Unused, chord) == v
    ensures forall chord :: Press(v, Enter, chord) == View(v.text[..v.offset] + "\n" + v.text[v.offset..], v.offset + 1)
  {
  }

  /** How far the cursor is from the start of its line. */
  predicate InColumn(v: View, column: nat) {
    && v.Valid() && column <= v.offset && (v.offset == column || v.text[v.offset - column - 1] == '\n')
    && forall i | v.offset - column <= i < v.offset :: v.text[i] != '\n'
  }

  lemma {:induction false} StartOfColumn(v: View, column: nat)
    requires InColumn(v, column)
    ensures LineStart(v.text, v.offset) == v.offset - column
    decreases column
  {
    if column > 0 {
      StartOfColumn(View(v.text, v.offset - 1), column - 1);
    }
  }

  lemma {:induction false} EndOfRest(text: string, offset: nat, n: nat)
    requires offset + n <= |text| && (offset + n == |text| || text[offset + n] == '\n')
    requires forall i | offset <= i < offset + n :: text[i] != '\n'
    ensures LineEnd(text, offset) == offset + n
    decreases n
  {
    if n > 0 {
      EndOfRest(text, offset + 1, n - 1);
    }
  }

  /** One line up, the column stays as far as that line reaches; with no line above, nothing happens. */
  lemma UpKeepsColumn(v: View, column: nat, above: string, before: string, chord: bool)
    requires InColumn(v, column) && '\n' !in above && (before != "" ==> before[|before| - 1] == '\n')
    ensures v.offset == column ==> Press(v, Up, chord) == v
    ensures v.text[..v.offset - column] == before + above + "\n" ==>
      Press(v, Up, chord) == View(v.text, |before| + if column <= |above| then column else |above|)
  {
    StartOfColumn(v, column);
    if v.text[..v.offset - column] == before + above + "\n" {
      var start := v.offset - column;
      assert forall i | 0 <= i < |before + above| :: v.text[i] == v.text[..start][i] == (before + above + "\n")[i];
      assert forall i | |before| <= i < start - 1 :: v.text[i] == above[i - |before|];
      StartOfColumn(View(v.text, start - 1), |above|);
    }
  }

  /** One line down, likewise. */
  lemma DownKeepsColumn(v: View, column: nat, rest: string, below: string, after: string, chord: bool)
    requires v.Valid() && InColumn(v, column)
    requires '\n' !in rest && '\n' !in below && (after != "" ==> after[0] == '\n')
    ensures v.text[v.offset..] == rest ==> Press(v, Down, chord) == v
    ensures v.text[v.offset..] == rest + "\n" + below + after ==>
      Press(v, Down, chord) == View(v.text, v.offset + |rest| + 1 + if column <= |below| then column else |below|)
  {
    hide LineStart, LineEnd, InColumn;
    StartOfColumn(v, column);
    var tail := v.text[v.offset..];
    if tail == rest {
      LastLine(v.text, v.offset, rest);
    } else if tail == rest + "\n" + below + after {
      LineBelow(v.text, v.offset, rest, below, after);
    }
  }

  lemma LastLine(text: string, offset: nat, rest: string)
    requires offset <= |text| && text[offset..] == rest && '\n' !in rest
    ensures LineEnd(text, offset) == |text|
  {
    assert forall i | 0 <= i < |rest| :: text[offset + i] == rest[i];
    EndOfRest(text, offset, |rest|);
  }

  lemma LineBelow(text: string, offset: nat, rest: string, below: string, after: string)
    requires offset <= |text| && text[offset..] == rest + "\n" + below + after
    requires '\n' !in rest && '\n' !in below && (after != "" ==> after[0] == '\n')
    ensures offset + |rest| < |text| && LineEnd(text, offset) == offset + |rest|
    ensures LineEnd(text, offset + |rest| + 1) == offset + |rest| + 1 + |below|
  {
    hide LineEnd;
    BreakAt(text, offset, rest, below + after);
    EndOfRest(text, offset, |rest|);
    var next := offset + |rest| + 1;
    assert text[next..] == text[offset..][|rest| + 1..] == below + after;
    if after == "" {
      assert below + after == below;
      LastLine(text, next, below);
    } else {
      assert below + after == below + "\n" + after[1..];
      BreakAt(text, next, below, after[1..]);
      EndOfRest(text, next, |below|);
    }
  }

  lemma BreakAt(text: string, offset: nat, line: string, more: string)
    requires offset <= |text| && text[offset..] == line + "\n" + more && '\n' !in line
    ensures offset + |line| < |text| && text[offset + |line|] == '\n'
    ensures forall i | offset <= i < offset + |line| :: text[i] != '\n'
  {
    var tail := text[offset..];
    assert tail[|line|] == '\n';
    forall i | offset <= i < offset + |line| ensures text[i] != '\n' {
      assert text[i] == tail[i - offset] == line[i - offset];
    }
  }
}
