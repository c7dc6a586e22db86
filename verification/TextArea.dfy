/** The multi-line text box: a ragged list of lines with a row and a column. */
module TextArea {
  import opened Text
  import opened FlatText

  type Line = seq<char>

  // ----- a view cut around its cursor line

  /** The text `up + line + down` with the cursor `col` characters into `line`. */
  function At(up: string, line: Line, down: string, col: nat): View {
    View(up + line + down, |up| + col)
  }

  lemma CutAt(up: string, line: Line, down: string, col: nat)
    requires col <= |line|
    ensures (up + line + down)[..|up| + col] == up + line[..col]
    ensures (up + line + down)[|up| + col..] == line[col..] + down
  {
  }

  lemma InsertAt(up: string, line: Line, down: string, col: nat, c: char)
    requires col <= |line|
    ensures Insert(At(up, line, down, col), [c]) == At(up, line[..col] + [c] + line[col..], down, col + 1)
  {
    CutAt(up, line, down, col);
    assert up + line[..col] + [c] + (line[col..] + down) == up + (line[..col] + [c] + line[col..]) + down;
  }

  lemma EnterAt(up: string, line: Line, down: string, col: nat)
    requires col <= |line|
    ensures Insert(At(up, line, down, col), "\n") == At(up + line[..col] + "\n", line[col..], down, 0)
  {
    CutAt(up, line, down, col);
    assert up + line[..col] + "\n" + (line[col..] + down) == up + line[..col] + "\n" + line[col..] + down;
  }

  lemma RemoveAt(up: string, line: Line, down: string, col: nat, at: nat)
    requires at < |line|
    ensures Remove(At(up, line, down, col), |up| + at) == At(up, line[..at] + line[at + 1..], down, at)
  {
    CutAt(up, line, down, at);
    CutAt(up, line, down, at + 1);
    assert up + line[..at] + (line[at + 1..] + down) == up + (line[..at] + line[at + 1..]) + down;
  }

  lemma JoinAt(up: string, line: Line, next: Line, down: string, offset: nat)
    ensures Remove(View(up + line + "\n" + next + down, offset), |up| + |line|)
         == At(up, line + next, down, |line|)
  {
    var text := up + line + "\n" + next + down;
    var end := |up| + |line|;
    assert text[..end] == up + line && text[end + 1..] == next + down;
    assert up + line + (next + down) == up + (line + next) + down;
  }

  // ----- layouts

  /** The lines above a row, each with its newline. */
  function Above(lines: seq<Line>): string {
    if lines == [] then "" else Above(lines[..|lines| - 1]) + lines[|lines| - 1] + "\n"
  }

  /** The lines below a row, each after its newline. */
  function Below(lines: seq<Line>): string {
    if lines == [] then "" else "\n" + lines[0] + Below(lines[1..])
  }

  predicate NoNewlines(lines: seq<Line>) {
    forall i | 0 <= i < |lines| :: '\n' !in lines[i]
  }

  predicate ValidLayout(lines: seq<Line>, row: nat, col: nat) {
    row < |lines| && col <= |lines[row]| && NoNewlines(lines)
  }

  /** The text and the cursor offset that a layout of lines stands for. */
  function ShownBy(lines: seq<Line>, row: nat, col: nat): (v: View)
    requires row < |lines| && col <= |lines[row]|
    ensures v.Valid()
  {
    At(Above(lines[..row]), lines[row], Below(lines[row + 1..]), col)
  }

  lemma {:induction false} JoinBelow(lines: seq<Line>)
    requires lines != []
    ensures Join(lines, "\n") == lines[0] + Below(lines[1..])
  {
    if |lines| == 1 {
      assert lines[0] + "" == lines[0];
    } else {
      JoinBelow(lines[1..]);
      assert lines[0] + "\n" + (lines[1] + Below(lines[1..][1..]))
        == lines[0] + ("\n" + lines[1] + Below(lines[1..][1..]));
    }
  }

  /** The text does not depend on the row it is cut at: it is the lines joined by newlines. */
  lemma {:induction false} ShownText(lines: seq<Line>, row: nat)
    requires row < |lines|
    ensures Above(lines[..row]) + lines[row] + Below(lines[row + 1..]) == Join(lines, "\n")
  {
    if row == 0 {
      JoinBelow(lines);
      assert "" + lines[0] == lines[0];
    } else {
      ShownText(lines, row - 1);
      CutBetween(lines, row);
    }
  }

  /** Around two neighbouring rows. */
  lemma CutBetween(lines: seq<Line>, row: nat)
    requires 0 < row < |lines|
    ensures Above(lines[..row]) == Above(lines[..row - 1]) + lines[row - 1] + "\n"
    ensures Below(lines[row..]) == "\n" + lines[row] + Below(lines[row + 1..])
    ensures Above(lines[..row - 1]) + lines[row - 1] + Below(lines[row..])
         == Above(lines[..row]) + lines[row] + Below(lines[row + 1..])
  {
    var up, l, m, down := Above(lines[..row - 1]), lines[row - 1], lines[row], Below(lines[row + 1..]);
    assert lines[..row][..row - 1] == lines[..row - 1];
    assert lines[row..][1..] == lines[row + 1..];
    assert up + l + ("\n" + m + down) == up + l + "\n" + m + down;
  }

  lemma {:induction false} StartOfLine(up: string, line: Line, down: string, col: nat)
    requires up != [] ==> up[|up| - 1] == '\n'
    requires '\n' !in line && col <= |line|
    ensures LineStart(up + line + down, |up| + col) == |up|
  {
    var text := up + line + down;
    if col == 0 {
      assert up != [] ==> text[|up| - 1] == up[|up| - 1];
    } else {
      assert text[|up| + col - 1] == line[col - 1];
      StartOfLine(up, line, down, col - 1);
    }
  }

  lemma {:induction false} EndOfLine(up: string, line: Line, down: string, col: nat)
    requires down != [] ==> down[0] == '\n'
    requires '\n' !in line && col <= |line|
    ensures LineEnd(up + line + down, |up| + col) == |up| + |line|
    decreases |line| - col
  {
    var text := up + line + down;
    if col == |line| {
      assert down != [] ==> text[|up| + col] == down[0];
    } else {
      assert text[|up| + col] == line[col];
      EndOfLine(up, line, down, col + 1);
    }
  }

  /** The cursor line is exactly the part of the text between the newlines around the offset. */
  lemma LineBounds(lines: seq<Line>, row: nat, col: nat)
    requires ValidLayout(lines, row, col)
    ensures var v := ShownBy(lines, row, col);
      && LineStart(v.text, v.offset) == |Above(lines[..row])|
      && LineEnd(v.text, v.offset) == |Above(lines[..row])| + |lines[row]|
  {
    StartOfLine(Above(lines[..row]), lines[row], Below(lines[row + 1..]), col);
    EndOfLine(Above(lines[..row]), lines[row], Below(lines[row + 1..]), col);
  }

  // ----- edits of the layout, and what they are on the flat text

  lemma ReplaceLine(lines: seq<Line>, row: nat, line: Line, col: nat)
    requires row < |lines| && col <= |line|
    ensures ShownBy(lines[row := line], row, col) == At(Above(lines[..row]), line, Below(lines[row + 1..]), col)
  {
    assert lines[row := line][..row] == lines[..row] && lines[row := line][row + 1..] == lines[row + 1..];
  }

  lemma InsertInLine(lines: seq<Line>, row: nat, col: nat, c: char)
    requires ValidLayout(lines, row, col) && c != '\n'
    ensures var line := lines[row][..col] + [c] + lines[row][col..];
      && ValidLayout(lines[row := line], row, col + 1)
      && ShownBy(lines[row := line], row, col + 1) == Insert(ShownBy(lines, row, col), [c])
  {
    ReplaceLine(lines, row, lines[row][..col] + [c] + lines[row][col..], col + 1);
    InsertAt(Above(lines[..row]), lines[row], Below(lines[row + 1..]), col, c);
  }

  lemma RemoveInLine(lines: seq<Line>, row: nat, col: nat, at: nat)
    requires ValidLayout(lines, row, col) && at < |lines[row]|
    ensures var line := lines[row][..at] + lines[row][at + 1..];
      && ValidLayout(lines[row := line], row, at)
      && ShownBy(lines[row := line], row, at) == Remove(ShownBy(lines, row, col), |Above(lines[..row])| + at)
  {
    ReplaceLine(lines, row, lines[row][..at] + lines[row][at + 1..], at);
    RemoveAt(Above(lines[..row]), lines[row], Below(lines[row + 1..]), col, at);
  }

  /** The lines after Enter: the part from the cursor on becomes a line of its own. */
  function Split(lines: seq<Line>, row: nat, col: nat): seq<Line>
    requires row < |lines| && col <= |lines[row]|
  {
    lines[..row] + [lines[row][..col], lines[row][col..]] + lines[row + 1..]
  }

  lemma SplitLine(lines: seq<Line>, row: nat, col: nat)
    requires ValidLayout(lines, row, col)
    ensures ValidLayout(Split(lines, row, col), row + 1, 0)
    ensures ShownBy(Split(lines, row, col), row + 1, 0) == Insert(ShownBy(lines, row, col), "\n")
  {
    var after, line := Split(lines, row, col), lines[row];
    EnterAt(Above(lines[..row]), line, Below(lines[row + 1..]), col);
    assert after[..row + 1] == lines[..row] + [line[..col]];
    assert (lines[..row] + [line[..col]])[..row] == lines[..row];
    assert after[row + 2..] == lines[row + 1..];
  }

  /** The lines with line `row` and the one below it made one. */
  function Joined(lines: seq<Line>, row: nat): seq<Line>
    requires row + 1 < |lines|
  {
    lines[..row] + [lines[row] + lines[row + 1]] + lines[row + 2..]
  }

  lemma JoinedValid(lines: seq<Line>, row: nat)
    requires row + 1 < |lines| && NoNewlines(lines)
    ensures ValidLayout(Joined(lines, row), row, |lines[row]|)
  {
    var after := Joined(lines, row);
    forall i | 0 <= i < |after| ensures '\n' !in after[i] {
      if i == row {
        assert after[i] == lines[row] + lines[row + 1];
      } else {
        assert after[i] == lines[if i < row then i else i + 1];
      }
    }
  }

  lemma JoinLines(lines: seq<Line>, row: nat, offset: nat)
    requires row + 1 < |lines| && NoNewlines(lines)
    ensures ValidLayout(Joined(lines, row), row, |lines[row]|)
    ensures |Above(lines[..row])| + |lines[row]| < |Join(lines, "\n")|
    ensures ShownBy(Joined(lines, row), row, |lines[row]|)
         == Remove(View(Join(lines, "\n"), offset), |Above(lines[..row])| + |lines[row]|)
  {
    JoinedValid(lines, row);
    hide NoNewlines, ValidLayout, Joined, Above, Below, Join, At;
    NewlineBetween(lines, row);
    JoinAt(Above(lines[..row]), lines[row], lines[row + 1], Below(lines[row + 2..]), offset);
    ShownJoined(lines, row);
  }

  lemma NewlineBetween(lines: seq<Line>, row: nat)
    requires row + 1 < |lines|
    ensures Join(lines, "\n") == Above(lines[..row]) + lines[row] + "\n" + lines[row + 1] + Below(lines[row + 2..])
  {
    ShownText(lines, row + 1);
    CutBetween(lines, row + 1);
  }

  lemma ShownJoined(lines: seq<Line>, row: nat)
    requires row + 1 < |lines|
    ensures ShownBy(Joined(lines, row), row, |lines[row]|)
         == At(Above(lines[..row]), lines[row] + lines[row + 1], Below(lines[row + 2..]), |lines[row]|)
  {
    var after := Joined(lines, row);
    assert after[..row] == lines[..row] && after[row + 1..] == lines[row + 2..];
  }

  // ----- cursor moves

  /** The cursor of the line above ends right before the newline that this line follows. */
  lemma RowsMeet(lines: seq<Line>, row: nat)
    requires 0 < row < |lines|
    ensures ShownBy(lines, row, 0) == ShownBy(lines, row - 1, |lines[row - 1]|).(offset := |Above(lines[..row])|)
    ensures |Above(lines[..row])| == |Above(lines[..row - 1])| + |lines[row - 1]| + 1
  {
    CutBetween(lines, row);
  }

  /** Only the last line reaches the end of the text, and only the first starts it. */
  lemma TextEdges(lines: seq<Line>, row: nat)
    requires row < |lines|
    ensures |Above(lines[..row])| + |lines[row]| == |Join(lines, "\n")| <==> row + 1 == |lines|
    ensures |Above(lines[..row])| == 0 <==> row == 0
  {
    ShownText(lines, row);
    assert row + 1 == |lines| ==> lines[row + 1..] == [];
  }

  lemma MoveUp(lines: seq<Line>, row: nat, col: nat)
    requires ValidLayout(lines, row, col) && row > 0
    ensures ShownBy(lines, row - 1, Min(col, |lines[row - 1]|)) == Press(ShownBy(lines, row, col), Up, false)
  {
    hide Above, Below, Join, NoNewlines;
    LineBounds(lines, row, col);
    LineBounds(lines, row - 1, |lines[row - 1]|);
    RowsMeet(lines, row);
  }

  lemma MoveDown(lines: seq<Line>, row: nat, col: nat)
    requires ValidLayout(lines, row, col) && row + 1 < |lines|
    ensures ShownBy(lines, row + 1, Min(col, |lines[row + 1]|)) == Press(ShownBy(lines, row, col), Down, false)
  {
    hide Above, Below, Join, NoNewlines;
    LineBounds(lines, row, col);
    LineBounds(lines, row + 1, 0);
    RowsMeet(lines, row + 1);
  }

  // ----- each branch of the key handler, as a press on the flat text

  lemma BackspaceInLine(lines: seq<Line>, row: nat, col: nat)
    requires ValidLayout(lines, row, col) && col > 0
    ensures var after := lines[row := lines[row][..col - 1] + lines[row][col..]];
      && ValidLayout(after, row, col - 1)
      && ShownBy(after, row, col - 1) == RemoveBefore(ShownBy(lines, row, col))
  {
    hide Above, Below, Join, NoNewlines;
    RemoveInLine(lines, row, col, col - 1);
  }

  lemma BackspaceJoins(lines: seq<Line>, row: nat)
    requires ValidLayout(lines, row, 0) && row > 0
    ensures ValidLayout(Joined(lines, row - 1), row - 1, |lines[row - 1]|)
    ensures ShownBy(Joined(lines, row - 1), row - 1, |lines[row - 1]|) == RemoveBefore(ShownBy(lines, row, 0))
  {
    hide Above, Below, Join, Joined, NoNewlines, Press;
    ShownText(lines, row);
    RowsMeet(lines, row);
    JoinLines(lines, row - 1, |Above(lines[..row])|);
  }

  lemma DeleteInLine(lines: seq<Line>, row: nat, col: nat)
    requires ValidLayout(lines, row, col) && col < |lines[row]|
    ensures var after := lines[row := lines[row][..col] + lines[row][col + 1..]];
      && ValidLayout(after, row, col)
      && ShownBy(after, row, col) == RemoveAfter(ShownBy(lines, row, col))
  {
    RemoveInLine(lines, row, col, col);
  }

  lemma DeleteJoins(lines: seq<Line>, row: nat)
    requires row + 1 < |lines| && ValidLayout(lines, row, |lines[row]|)
    ensures ValidLayout(Joined(lines, row), row, |lines[row]|)
    ensures ShownBy(Joined(lines, row), row, |lines[row]|) == RemoveAfter(ShownBy(lines, row, |lines[row]|))
  {
    hide Above, Below, Join, Joined, NoNewlines, Press;
    ShownText(lines, row);
    JoinLines(lines, row, |Above(lines[..row])| + |lines[row]|);
  }

  /** At the edges of the text, nothing happens. */
  lemma AtEdge(lines: seq<Line>, row: nat, col: nat)
    requires ValidLayout(lines, row, col)
    ensures var v := ShownBy(lines, row, col);
      && (row == 0 ==> Press(v, Up, false) == v)
      && (row == 0 && col == 0 ==> RemoveBefore(v) == Press(v, Left, false) == v)
      && (row + 1 == |lines| ==> Press(v, Down, false) == v)
      && (row + 1 == |lines| && col == |lines[row]| ==> RemoveAfter(v) == Press(v, Right, false) == v)
  {
    TextEdges(lines, row);
    ShownText(lines, row);
    LineBounds(lines, row, col);
  }

  /** Home and End in rows and columns. */
  lemma HomeAndEnd(lines: seq<Line>, row: nat, col: nat)
    requires ValidLayout(lines, row, col)
    ensures Press(ShownBy(lines, row, col), Home, false) == ShownBy(lines, row, 0)
    ensures Press(ShownBy(lines, row, col), End, false) == ShownBy(lines, row, |lines[row]|)
  {
    LineBounds(lines, row, col);
  }

  // ----- loading a text

  function DropReturn(line: string): string {
    if line != [] && line[|line| - 1] == '\r' then line[..|line| - 1] else line
  }

  /** `str::lines`: the text between newlines, without a carriage return in front of a newline, and
      without an empty last line. */
  function Lines(s: string): (r: seq<Line>)
    ensures NoNewlines(r)
  {
    var newline := Find(s, '\n');
    if s == [] then []
    else if newline.None? then [s]
    else [DropReturn(s[..newline.value])] + Lines(s[newline.value + 1..])
  }

  /** The rules that give the lines of any text. */
  lemma LinesAre(line: string, rest: string)
    requires '\n' !in line
    ensures Lines("") == [] && (line != "" ==> Lines(line) == [line])
    ensures Lines(line + "\r\n" + rest) == [line] + Lines(rest)
    ensures (line != "" ==> line[|line| - 1] != '\r') ==> Lines(line + "\n" + rest) == [line] + Lines(rest)
  {
    hide Lines, DropReturn;
    OneMoreLine(line, rest);
    OneMoreLine(line + "\r", rest);
    ReturnDropped(line, rest);
    LastLine(line);
  }

  lemma ReturnDropped(line: string, rest: string)
    ensures line + "\r" + "\n" + rest == line + "\r\n" + rest && DropReturn(line + "\r") == line
    ensures (line != "" ==> line[|line| - 1] != '\r') ==> DropReturn(line) == line
  {
  }

  lemma LastLine(line: string)
    requires '\n' !in line
    ensures Lines("") == [] && (line != "" ==> Lines(line) == [line])
  {
  }

  lemma OneMoreLine(first: string, rest: string)
    requires '\n' !in first
    ensures Lines(first + "\n" + rest) == [DropReturn(first)] + Lines(rest)
  {
    hide Find, DropReturn;
    var s := first + "\n" + rest;
    FindAfter(first, '\n', rest);
    assert s[..|first|] == first && s[|first| + 1..] == rest;
  }

  function Loaded(s: string): (r: seq<Line>)
    ensures r != [] && NoNewlines(r)
  {
    if Lines(s) == [] then [""] else Lines(s)
  }

  predicate HasReturnNewline(s: string) {
    exists i :: 0 < i < |s| && s[i - 1] == '\r' && s[i] == '\n'
  }

  lemma JoinFirst(line: Line, more: seq<Line>)
    requires more != []
    ensures Join([line] + more, "\n") == line + "\n" + Join(more, "\n")
  {
    assert ([line] + more)[1..] == more;
  }

  lemma FirstReturnNewline(s: string, k: nat)
    requires k < |s| && s[k] == '\n' && '\n' !in s[..k]
    ensures HasReturnNewline(s) <==> (k > 0 && s[k - 1] == '\r') || HasReturnNewline(s[k + 1..])
  {
    var rest := s[k + 1..];
    assert forall j | 0 <= j < k :: s[j] == s[..k][j];
    assert forall j | 0 <= j < |rest| :: rest[j] == s[j + k + 1];
    if i :| 0 < i < |s| && s[i - 1] == '\r' && s[i] == '\n' && i != k {
      assert rest[i - k - 2] == '\r' && rest[i - k - 1] == '\n';
    }
    if i :| 0 < i < |rest| && rest[i - 1] == '\r' && rest[i] == '\n' {
      assert s[i + k] == '\r' && s[i + k + 1] == '\n';
    }
  }

  predicate KeepsText(s: string) {
    Join(Loaded(s), "\n") == s
  }

  predicate LoadsExactly(s: string) {
    !HasReturnNewline(s) && !(s != [] && s[|s| - 1] == '\n')
  }

  /** Loading keeps the text exactly when it has no Windows line break and no newline at its end. */
  lemma {:induction false} LoadKeepsText(s: string)
    ensures |Join(Loaded(s), "\n")| <= |s|
    ensures KeepsText(s) <==> LoadsExactly(s)
  {
    var newline := Find(s, '\n');
    if newline.Some? {
      var first, rest := s[..newline.value], s[newline.value + 1..];
      assert s == first + "\n" + rest;
      LoadKeepsText(rest);
      if rest == [] {
        LoadOnly(first);
      } else {
        LoadRest(first, rest);
        ExactRest(first, rest);
      }
    }
  }

  lemma ExactRest(first: string, rest: string)
    requires '\n' !in first && rest != []
    ensures LoadsExactly(first + "\n" + rest) <==> DropReturn(first) == first && LoadsExactly(rest)
  {
    var s := first + "\n" + rest;
    assert s[..|first|] == first && s[|first| + 1..] == rest;
    FirstReturnNewline(s, |first|);
    assert s[|s| - 1] == rest[|rest| - 1];
    assert |first| > 0 ==> s[|first| - 1] == first[|first| - 1];
  }

  lemma LoadOnly(first: string)
    requires '\n' !in first
    ensures Loaded(first + "\n" + "") == [DropReturn(first)]
  {
    FindAfter(first, '\n', "");
    var s := first + "\n" + "";
    assert s[..|first|] == first && s[|first| + 1..] == "";
    assert Lines(s) == [DropReturn(first)] + Lines("");
  }

  lemma LoadRest(first: string, rest: string)
    requires '\n' !in first && rest != [] && |Join(Loaded(rest), "\n")| <= |rest|
    ensures var s := first + "\n" + rest;
      && Join(Loaded(s), "\n") == DropReturn(first) + "\n" + Join(Loaded(rest), "\n")
      && (Join(Loaded(s), "\n") == s <==> DropReturn(first) == first && Join(Loaded(rest), "\n") == rest)
  {
    var s := first + "\n" + rest;
    FindAfter(first, '\n', rest);
    assert s[..|first|] == first && s[|first| + 1..] == rest;
    JoinFirst(DropReturn(first), Loaded(rest));
    var text := DropReturn(first) + "\n" + Join(Loaded(rest), "\n");
    if text == s {
      assert |DropReturn(first)| == |first|;
      assert text[|first| + 1..] == Join(Loaded(rest), "\n");
    }
  }

  // ----- the flat view decides the layout

  lemma {:induction false} JoinInjective(a: seq<Line>, b: seq<Line>)
    requires a != [] && b != [] && NoNewlines(a) && NoNewlines(b) && Join(a, "\n") == Join(b, "\n")
    ensures a == b
  {
    hide Above;
    var text := Join(a, "\n");
    JoinBelow(a);
    JoinBelow(b);
    FirstLine(a[0], Below(a[1..]), b[0], Below(b[1..]));
    assert |a| == 1 <==> Below(a[1..]) == "";
    assert |b| == 1 <==> Below(b[1..]) == "";
    if |a| > 1 {
      JoinBelow(a[1..]);
      JoinBelow(b[1..]);
      assert Below(a[1..]) == "\n" + Join(a[1..], "\n") && Below(b[1..]) == "\n" + Join(b[1..], "\n");
      assert Below(a[1..])[1..] == Join(a[1..], "\n") && Below(b[1..])[1..] == Join(b[1..], "\n");
      JoinInjective(a[1..], b[1..]);
      assert a == [a[0]] + a[1..] && b == [b[0]] + b[1..];
    }
  }

  lemma FirstLine(a: Line, afterA: string, b: Line, afterB: string)
    requires '\n' !in a && '\n' !in b && a + afterA == b + afterB
    requires (afterA != [] ==> afterA[0] == '\n') && (afterB != [] ==> afterB[0] == '\n')
    ensures a == b && afterA == afterB
  {
    var text := a + afterA;
    assert forall i | 0 <= i < |a| :: text[i] == a[i];
    assert forall i | 0 <= i < |b| :: text[i] == b[i];
    assert (afterA != [] ==> text[|a|] == '\n') && (afterB != [] ==> text[|b|] == '\n');
    assert a == text[..|a|] && b == text[..|b|] && afterA == text[|a|..] && afterB == text[|b|..];
  }

  lemma {:induction false} AboveGrows(lines: seq<Line>, r: nat, row: nat)
    requires r < row < |lines|
    ensures |Above(lines[..r])| + |lines[r]| < |Above(lines[..row])|
  {
    RowsMeet(lines, row);
    if r < row - 1 {
      AboveGrows(lines, r, row - 1);
    }
  }

  /** Two boxes that show the same text and offset are in the same state, so the flat view alone
      decides everything that later keys do. */
  lemma LayoutUnique(a: seq<Line>, rowA: nat, colA: nat, b: seq<Line>, rowB: nat, colB: nat)
    requires ValidLayout(a, rowA, colA) && ValidLayout(b, rowB, colB)
    requires ShownBy(a, rowA, colA) == ShownBy(b, rowB, colB)
    ensures a == b && rowA == rowB && colA == colB
  {
    ShownText(a, rowA);
    ShownText(b, rowB);
    JoinInjective(a, b);
    if rowA < rowB {
      AboveGrows(a, rowA, rowB);
    } else if rowB < rowA {
      AboveGrows(a, rowB, rowA);
    }
  }

  // ----- the text box

  class TextArea {
    var lines: seq<Line>
    var cursorRow: nat
    var cursorCol: nat

    /** There is always a line, and the cursor is always inside one. */
    ghost predicate Valid()
      reads this
    {
      ValidLayout(lines, cursorRow, cursorCol)
    }

    ghost function Shown(): (v: View)
      requires Valid()
      reads this
      ensures v.Valid()
    {
      ShownBy(lines, cursorRow, cursorCol)
    }

    constructor (initial: string)
      ensures Valid() && lines == Loaded(initial)
      ensures Shown() == View(Join(Loaded(initial), "\n"), |Join(Loaded(initial), "\n")|)
    {
      var loaded := Lines(initial);
      if loaded == [] {
        loaded := [""];
      }
      lines := loaded;
      cursorRow := |loaded| - 1;
      cursorCol := |loaded[|loaded| - 1]|;
      ShownText(loaded, |loaded| - 1);
      TextEdges(loaded, |loaded| - 1);
    }

    method Text() returns (text: string)
      requires Valid()
      ensures text == Shown().text
    {
      ShownText(lines, cursorRow);
      text := Join(lines, "\n");
    }

    method SetText(text: string)
      modifies this
      ensures Valid() && lines == Loaded(text)
      ensures Shown() == View(Join(Loaded(text), "\n"), |Join(Loaded(text), "\n")|)
    {
      lines := Loaded(text);
      cursorRow := |lines| - 1;
      cursorCol := |lines[cursorRow]|;
      ShownText(lines, cursorRow);
      TextEdges(lines, cursorRow);
    }

    method EnterKey()
      requires Valid()
      modifies this
      ensures Valid() && Shown() == Insert(old(Shown()), "\n")
    {
      SplitLine(lines, cursorRow, cursorCol);
      var rest := lines[cursorRow][cursorCol..];
      lines := lines[cursorRow := lines[cursorRow][..cursorCol]];
      lines := lines[..cursorRow + 1] + [rest] + lines[cursorRow + 1..];
      assert lines == Split(old(lines), old(cursorRow), old(cursorCol));
      cursorRow := cursorRow + 1;
      cursorCol := 0;
    }

    method InsertChar(c: char)
      requires Valid() && c != '\n'
      modifies this
      ensures Valid() && Shown() == Insert(old(Shown()), [c])
    {
      InsertInLine(lines, cursorRow, cursorCol, c);
      lines := lines[cursorRow := lines[cursorRow][..cursorCol] + [c] + lines[cursorRow][cursorCol..]];
      cursorCol := cursorCol + 1;
    }

    method Backspace()
      requires Valid()
      modifies this
      ensures Valid() && Shown() == RemoveBefore(old(Shown()))
    {
      hide Above, Below, Join, NoNewlines, ShownBy, RemoveBefore;
      AtEdge(lines, cursorRow, cursorCol);
      if cursorCol > 0 {
        BackspaceInLine(lines, cursorRow, cursorCol);
        cursorCol := cursorCol - 1;
        lines := lines[cursorRow := lines[cursorRow][..cursorCol] + lines[cursorRow][cursorCol + 1..]];
      } else if cursorRow > 0 {
        BackspaceJoins(lines, cursorRow);
        var current := lines[cursorRow];
        var kept := lines[..cursorRow] + lines[cursorRow + 1..];
        cursorRow := cursorRow - 1;
        cursorCol := |kept[cursorRow]|;
        lines := kept[cursorRow := kept[cursorRow] + current];
        assert lines == Joined(old(lines), cursorRow);
      }
    }

    method Delete()
      requires Valid()
      modifies this
      ensures Valid() && Shown() == RemoveAfter(old(Shown()))
    {
      hide Above, Below, Join, NoNewlines, ShownBy, RemoveAfter;
      AtEdge(lines, cursorRow, cursorCol);
      if cursorCol < |lines[cursorRow]| {
        DeleteInLine(lines, cursorRow, cursorCol);
        lines := lines[cursorRow := lines[cursorRow][..cursorCol] + lines[cursorRow][cursorCol + 1..]];
      } else if cursorRow + 1 < |lines| {
        DeleteJoins(lines, cursorRow);
        var next := lines[cursorRow + 1];
        var kept := lines[..cursorRow + 1] + lines[cursorRow + 2..];
        lines := kept[cursorRow := kept[cursorRow] + next];
        assert lines == Joined(old(lines), cursorRow);
      }
    }

    method MoveSideways(key: Key)
      requires Valid() && (key == Left || key == Right)
      modifies this
      ensures Valid() && Shown() == Press(old(Shown()), key, false)
    {
      AtEdge(lines, cursorRow, cursorCol);
      ShownText(lines, cursorRow);
      TextEdges(lines, cursorRow);
      if key == Left {
        if cursorCol > 0 {
          cursorCol := cursorCol - 1;
        } else if cursorRow > 0 {
          RowsMeet(lines, cursorRow);
          cursorRow := cursorRow - 1;
          cursorCol := |lines[cursorRow]|;
        }
      } else if cursorCol < |lines[cursorRow]| {
        cursorCol := cursorCol + 1;
      } else if cursorRow + 1 < |lines| {
        RowsMeet(lines, cursorRow + 1);
        cursorRow := cursorRow + 1;
        cursorCol := 0;
      }
    }

    method MoveVertically(key: Key)
      requires Valid() && (key == Up || key == Down)
      modifies this
      ensures Valid() && Shown() == Press(old(Shown()), key, false)
    {
      hide Above, Below, Join, ShownBy, Press;
      AtEdge(lines, cursorRow, cursorCol);
      if key == Up {
        if cursorRow > 0 {
          MoveUp(lines, cursorRow, cursorCol);
          cursorRow := cursorRow - 1;
          cursorCol := Min(cursorCol, |lines[cursorRow]|);
        }
      } else if cursorRow + 1 < |lines| {
        MoveDown(lines, cursorRow, cursorCol);
        cursorRow := cursorRow + 1;
        cursorCol := Min(cursorCol, |lines[cursorRow]|);
      }
    }

    method MoveInLine(key: Key)
      requires Valid() && (key == Home || key == End)
      modifies this
      ensures Valid() && Shown() == Press(old(Shown()), key, false)
    {
      LineBounds(lines, cursorRow, cursorCol);
      cursorCol := if key == Home then 0 else |lines[cursorRow]|;
    }

    /** One key. Whatever the key, the box shows what the flat text would, and the result says
        whether the key was used. */
    method HandleKeyEvent(key: Key, chord: bool) returns (used: bool)
      requires Valid() && key != Char('\n')
      modifies this
      ensures Valid() && Shown() == Press(old(Shown()), key, chord)
      ensures used <==> key != Unused && !(key.Char? && chord)
    {
      used := true;
      match key
      case Char(c) =>
        if chord {
          used := false;
        } else {
          InsertChar(c);
        }
      case Enter => EnterKey();
      case Backspace => Backspace();
      case Delete => Delete();
      case Left | Right => MoveSideways(key);
      case Up | Down => MoveVertically(key);
      case Home | End => MoveInLine(key);
      case Unused => used := false;
    }

    /** Pasting inserts the text without its carriage returns. */
    method InsertStr(text: string)
      requires Valid()
      modifies this
      ensures Valid() && Shown() == Insert(old(Shown()), DropReturns(text))
    {
      InsertNothing(Shown());
      for i := 0 to |text|
        invariant Valid() && Shown() == Insert(old(Shown()), DropReturns(text[..i]))
      {
        assert text[..i + 1][..i] == text[..i];
        InsertTwice(old(Shown()), DropReturns(text[..i]), [text[i]]);
        if text[i] == '\n' {
          EnterKey();
        } else if text[i] != '\r' {
          InsertChar(text[i]);
        }
      }
      assert text[..|text|] == text;
    }
  }

  function DropReturns(s: string): string {
    if s == [] then ""
    else DropReturns(s[..|s| - 1]) + if s[|s| - 1] == '\r' then "" else [s[|s| - 1]]
  }

  /** Every carriage return goes and everything else stays. */
  lemma {:induction false} ReturnsGo(a: string, b: string)
    ensures DropReturns(a + "\r" + b) == DropReturns(a + b)
    ensures '\r' !in a ==> DropReturns(a) == a
    decreases |a| + |b|
  {
    if b != "" {
      var n := |b| - 1;
      ReturnsGo(a, b[..n]);
      assert b == b[..n] + [b[n]];
      assert (a + "\r" + b)[..|a| + 1 + n] == a + "\r" + b[..n] && (a + b)[..|a| + n] == a + b[..n];
    } else {
      assert a + b == a && (a + "\r" + b)[..|a|] == a;
      assert DropReturns(a) + "" == DropReturns(a);
      if a != "" {
        var n := |a| - 1;
        ReturnsGo(a[..n], "");
        assert a == a[..n] + [a[n]];
      }
    }
  }

  lemma InsertNothing(v: View)
    requires v.Valid()
    ensures Insert(v, "") == v
  {
    assert v.text[..v.offset] + "" + v.text[v.offset..] == v.text;
  }

  // ----- the one-line box

  /** The effect of one key on a single-line field: Home and End know no lines. */
  function PressField(v: View, key: Key, chord: bool): (r: View)
    requires v.Valid()
    ensures r.Valid()
  {
    match key
    case Home => v.(offset := 0)
    case End => v.(offset := |v.text|)
    case _ => Press(v, key, chord)
  }

  /** In the field, Home and End go to the edges of the whole text, newlines or not, and Left and Right step
      as they do in the big box. */
  lemma FieldEdges(v: View, chord: bool)
    requires v.Valid()
    ensures PressField(v, Home, chord) == View(v.text, 0) && PressField(v, End, chord) == View(v.text, |v.text|)
    ensures PressField(v, Left, chord) == View(v.text, if v.offset > 0 then v.offset - 1 else 0)
    ensures PressField(v, Right, chord) == View(v.text, if v.offset < |v.text| then v.offset + 1 else v.offset)
  {
  }

  /** On a text without newlines the keys of the field do what they do in the big box. */
  lemma FieldIsOneLine(v: View, key: Key, chord: bool)
    requires v.Valid() && '\n' !in v.text
    ensures PressField(v, key, chord) == Press(v, key, chord)
  {
    SingleLine(v.text, v.offset);
  }

  /** A single-line field, which may be given a text with newlines and then keeps them. Enter, Up and
      Down are left to whoever hosts it. */
  class TextInput {
    var chars: seq<char>
    var cursor: nat

    ghost predicate Valid()
      reads this
    {
      cursor <= |chars|
    }

    ghost function Shown(): View
      reads this
    {
      View(chars, cursor)
    }

    constructor (initial: string)
      ensures Valid() && Shown() == View(initial, |initial|)
    {
      chars := initial;
      cursor := |initial|;
    }

    /** Pasting drops newlines and carriage returns. */
    method InsertStr(text: string)
      requires Valid()
      modifies this
      ensures Valid() && Shown() == Insert(old(Shown()), OneLine(text))
    {
      InsertNothing(Shown());
      for i := 0 to |text|
        invariant Valid() && Shown() == Insert(old(Shown()), OneLine(text[..i]))
      {
        assert text[..i + 1][..i] == text[..i];
        InsertTwice(old(Shown()), OneLine(text[..i]), [text[i]]);
        if text[i] != '\n' && text[i] != '\r' {
          chars := chars[..cursor] + [text[i]] + chars[cursor..];
          cursor := cursor + 1;
        }
      }
      assert text[..|text|] == text;
    }

    method HandleKeyEvent(key: Key, chord: bool) returns (used: bool)
      requires Valid()
      modifies this
      ensures Valid()
      ensures used <==> !(key == Enter || key == Up || key == Down || key == Unused || (key.Char? && chord))
      ensures Shown() == if used then PressField(old(Shown()), key, chord) else old(Shown())
    {
      used := true;
      match key
      case Char(c) =>
        if chord {
          used := false;
        } else {
          chars := chars[..cursor] + [c] + chars[cursor..];
          cursor := cursor + 1;
        }
      case Backspace =>
        if cursor > 0 {
          cursor := cursor - 1;
          chars := chars[..cursor] + chars[cursor + 1..];
        }
      case Delete =>
        if cursor < |chars| {
          chars := chars[..cursor] + chars[cursor + 1..];
        }
      case Left => cursor := if cursor > 0 then cursor - 1 else 0;
      case Right => cursor := Min(cursor + 1, |chars|);
      case Home => cursor := 0;
      case End => cursor := |chars|;
      case Enter | Up | Down | Unused => used := false;
    }
  }

  function OneLine(s: string): string {
    if s == [] then ""
    else OneLine(s[..|s| - 1]) + if s[|s| - 1] == '\n' || s[|s| - 1] == '\r' then "" else [s[|s| - 1]]
  }

  /** Every line break and carriage return goes and everything else stays. */
  lemma {:induction false} BreaksGo(a: string, c: char, b: string)
    requires c == '\n' || c == '\r'
    ensures OneLine(a + [c] + b) == OneLine(a + b)
    ensures '\n' !in a && '\r' !in a ==> OneLine(a) == a
    decreases |a| + |b|
  {
    if b != "" {
      var n := |b| - 1;
      BreaksGo(a, c, b[..n]);
      assert b == b[..n] + [b[n]];
      assert (a + [c] + b)[..|a| + 1 + n] == a + [c] + b[..n] && (a + b)[..|a| + n] == a + b[..n];
    } else {
      assert a + b == a && (a + [c] + b)[..|a|] == a;
      assert OneLine(a) + "" == OneLine(a);
      if a != "" {
        var n := |a| - 1;
        BreaksGo(a[..n], c, "");
        assert a == a[..n] + [a[n]];
      }
    }
  }

  lemma SingleLine(line: Line, col: nat)
    requires '\n' !in line && col <= |line|
    ensures LineStart(line, col) == 0 && LineEnd(line, col) == |line|
  {
    StartOfLine("", line, "", col);
    EndOfLine("", line, "", col);
    assert "" + line + "" == line;
  }
}
