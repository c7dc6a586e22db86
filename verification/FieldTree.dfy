/** The MongoDB connector's field paths: a sampled document is flattened into dotted paths for
    the schema, and an insert snippet groups dotted paths back into a tree. */
module FieldTree {
  import opened Text

  datatype Entry = Entry(name: string, value: Bson)

  datatype Bson = Scalar(typeName: string) | Document(fields: seq<Entry>)

  datatype Column = Column(path: string, typeName: string, primaryKey: bool)

  /** One level of the insert tree: a leaf keeps the full path it came from. */
  datatype Field = Leaf(original: string) | Group(children: seq<Node>)

  datatype Node = Node(key: string, field: Field)

  type Fields = seq<Node>

  // ----- flattening

  function PathOf(prefix: string, name: string): string {
    if prefix == "" then name else prefix + "." + name
  }

  function Flatten(prefix: string, doc: seq<Entry>): seq<Column>
    decreases doc
  {
    if doc == [] then [] else FieldColumns(prefix, doc[0]) + Flatten(prefix, doc[1..])
  }

  function FieldColumns(prefix: string, entry: Entry): seq<Column>
    decreases entry
  {
    var path := PathOf(prefix, entry.name);
    match entry.value
    case Document(nested) => Flatten(path, nested)
    case Scalar(typeName) => [Column(path, typeName, entry.name == "_id")]
  }

  /** Appends the columns of one document level to `before`. */
  method FlattenDocument(prefix: string, doc: seq<Entry>, before: seq<Column>) returns (out: seq<Column>)
    ensures out == before + Flatten(prefix, doc)
    decreases doc
  {
    out := before;
    for i := 0 to |doc|
      invariant before + Flatten(prefix, doc) == out + Flatten(prefix, doc[i..])
    {
      var entry := doc[i];
      var path := PathOf(prefix, entry.name);
      ghost var here, rest := FieldColumns(prefix, entry), Flatten(prefix, doc[i + 1..]);
      assert doc[i..][1..] == doc[i + 1..];
      assert out + (here + rest) == out + here + rest;
      match entry.value {
        case Document(nested) =>
          out := FlattenDocument(path, nested, out);
        case Scalar(typeName) =>
          out := out + [Column(path, typeName, entry.name == "_id")];
      }
    }
    assert out + [] == out;
  }

  // ----- the columns, spelled out

  /** The scalars of a document in order: the names that lead to each, and its type. */
  function Scalars(doc: seq<Entry>): seq<(seq<string>, string)>
    decreases doc
  {
    if doc == [] then []
    else
      match doc[0].value
      case Document(nested) => Below(doc[0].name, Scalars(nested)) + Scalars(doc[1..])
      case Scalar(typeName) => [([doc[0].name], typeName)] + Scalars(doc[1..])
  }

  function Below(name: string, scalars: seq<(seq<string>, string)>): (r: seq<(seq<string>, string)>)
    ensures |r| == |scalars| && forall i | 0 <= i < |r| :: r[i] == ([name] + scalars[i].0, scalars[i].1)
  {
    seq(|scalars|, i requires 0 <= i < |scalars| => ([name] + scalars[i].0, scalars[i].1))
  }

  /** The names behind a prefix, joined by dots. */
  function Dotted(prefix: string, names: seq<string>): string
    decreases |names|
  {
    if names == [] then prefix else Dotted(PathOf(prefix, names[0]), names[1..])
  }

  /** A column for each scalar, in order, with its dotted path and its type; a primary key is one whose own
      name is `_id`. */
  predicate ColumnsOf(prefix: string, scalars: seq<(seq<string>, string)>, columns: seq<Column>) {
    && |columns| == |scalars|
    && forall i | 0 <= i < |scalars| ::
         && scalars[i].0 != []
         && columns[i] == Column(Dotted(prefix, scalars[i].0), scalars[i].1, scalars[i].0[|scalars[i].0| - 1] == "_id")
  }

  lemma ColumnsConcat(prefix: string, a: seq<(seq<string>, string)>, b: seq<(seq<string>, string)>, c: seq<Column>,
                      d: seq<Column>)
    requires ColumnsOf(prefix, a, c) && ColumnsOf(prefix, b, d)
    ensures ColumnsOf(prefix, a + b, c + d)
  {
    forall i | 0 <= i < |a + b|
      ensures var s := (a + b)[i];
        s.0 != [] && (c + d)[i] == Column(Dotted(prefix, s.0), s.1, s.0[|s.0| - 1] == "_id")
    {
      if i < |a| {
        assert (a + b)[i] == a[i] && (c + d)[i] == c[i];
      } else {
        assert (a + b)[i] == b[i - |a|] && (c + d)[i] == d[i - |a|];
      }
    }
  }

  lemma ColumnsBelow(prefix: string, name: string, scalars: seq<(seq<string>, string)>, columns: seq<Column>)
    requires ColumnsOf(PathOf(prefix, name), scalars, columns)
    ensures ColumnsOf(prefix, Below(name, scalars), columns)
  {
    var r := Below(name, scalars);
    forall i | 0 <= i < |scalars|
      ensures r[i].0 != []
      ensures columns[i] == Column(Dotted(prefix, r[i].0), r[i].1, r[i].0[|r[i].0| - 1] == "_id")
    {
      assert ([name] + scalars[i].0)[1..] == scalars[i].0;
    }
  }

  /** Flattening gives just these columns. */
  lemma {:induction false} FlattenGivesScalars(prefix: string, doc: seq<Entry>)
    ensures ColumnsOf(prefix, Scalars(doc), Flatten(prefix, doc))
    decreases doc
  {
    hide ColumnsOf;
    if doc == [] {
      NoColumns(prefix);
    } else {
      FlattenGivesScalars(prefix, doc[1..]);
      match doc[0].value {
        case Document(nested) =>
          FlattenGivesScalars(PathOf(prefix, doc[0].name), nested);
          ColumnsBelow(prefix, doc[0].name, Scalars(nested), Flatten(PathOf(prefix, doc[0].name), nested));
          ColumnsConcat(prefix, Below(doc[0].name, Scalars(nested)), Scalars(doc[1..]),
                        FieldColumns(prefix, doc[0]), Flatten(prefix, doc[1..]));
        case Scalar(typeName) =>
          OneColumn(prefix, doc[0].name, typeName);
          ColumnsConcat(prefix, [([doc[0].name], typeName)], Scalars(doc[1..]),
                        FieldColumns(prefix, doc[0]), Flatten(prefix, doc[1..]));
      }
    }
  }

  lemma NoColumns(prefix: string)
    ensures ColumnsOf(prefix, [], [])
  {
  }

  lemma OneColumn(prefix: string, name: string, typeName: string)
    ensures ColumnsOf(prefix, [([name], typeName)], [Column(PathOf(prefix, name), typeName, name == "_id")])
  {
    var names := [name];
    assert names[1..] == [] && Dotted(prefix, names) == PathOf(prefix, name);
    assert |names| == 1 && names[|names| - 1] == name;
  }

  // ----- inserting one path

  function FindKey(roots: Fields, key: string): (r: Option<nat>)
    ensures r.Some? ==> r.value < |roots| && roots[r.value].key == key
    ensures r.Some? ==> forall i | 0 <= i < r.value :: roots[i].key != key
    ensures r.None? ==> forall i | 0 <= i < |roots| :: roots[i].key != key
  {
    if roots == [] then None
    else if roots[0].key == key then Some(0)
    else
      var rest := FindKey(roots[1..], key);
      if rest.None? then None else Some(rest.value + 1)
  }

  function Insert(roots: Fields, remaining: string, original: string): Fields
    decreases |remaining|
  {
    var dot := Find(remaining, '.');
    if dot.None? then roots + [Node(remaining, Leaf(original))]
    else
      var head, rest := remaining[..dot.value], remaining[dot.value + 1..];
      var at := FindKey(roots, head);
      if at.Some? && roots[at.value].field.Group? then
        roots[at.value := Node(head, Group(Insert(roots[at.value].field.children, rest, original)))]
      else roots + [Node(head, Group(Insert([], rest, original)))]
  }

  /** Inserts one path, descending into the first group of that key or opening a new one. */
  method InsertFieldPath(roots: Fields, remaining: string, original: string) returns (out: Fields)
    ensures out == Insert(roots, remaining, original)
    decreases |remaining|
  {
    var dot := Find(remaining, '.');
    if dot.None? {
      return roots + [Node(remaining, Leaf(original))];
    }
    var head, rest := remaining[..dot.value], remaining[dot.value + 1..];
    var i := 0;
    while i < |roots| && roots[i].key != head
      invariant 0 <= i <= |roots| && forall j | 0 <= j < i :: roots[j].key != head
    {
      i := i + 1;
    }
    if i < |roots| && roots[i].field.Group? {
      var children := InsertFieldPath(roots[i].field.children, rest, original);
      out := roots[i := Node(head, Group(children))];
    } else {
      var children := InsertFieldPath([], rest, original);
      out := roots + [Node(head, Group(children))];
    }
  }

  function InsertAll(roots: Fields, paths: seq<(string, string)>): Fields
    decreases |paths|
  {
    if paths == [] then roots else InsertAll(Insert(roots, paths[0].0, paths[0].1), paths[1..])
  }

  function SelfPaired(fields: seq<string>): seq<(string, string)> {
    if fields == [] then [] else [(fields[0], fields[0])] + SelfPaired(fields[1..])
  }

  /** The tree an insert snippet is rendered from. */
  function Build(fields: seq<string>): Fields {
    InsertAll([], SelfPaired(fields))
  }

  method BuildTree(fields: seq<string>) returns (roots: Fields)
    ensures roots == Build(fields)
  {
    roots := [];
    for i := 0 to |fields|
      invariant Build(fields) == InsertAll(roots, SelfPaired(fields[i..]))
    {
      assert fields[i..][1..] == fields[i + 1..];
      assert SelfPaired(fields[i..])[1..] == SelfPaired(fields[i + 1..]);
      roots := InsertFieldPath(roots, fields[i], fields[i]);
    }
  }

  // ----- rebuilding a flattened document

  /** A BSON document has every name once per level. */
  predicate Distinct(doc: seq<Entry>)
    decreases doc
  {
    doc == [] ||
    (&& (forall j | 0 < j < |doc| :: doc[j].name != doc[0].name)
     && (doc[0].value.Document? ==> Distinct(doc[0].value.fields))
     && Distinct(doc[1..]))
  }

  /** No name has a dot, and no sub-document is empty. */
  predicate Dotless(doc: seq<Entry>)
    decreases doc
  {
    doc == [] ||
    (&& '.' !in doc[0].name
     && (doc[0].value.Document? ==> doc[0].value.fields != [] && Dotless(doc[0].value.fields))
     && Dotless(doc[1..]))
  }

  /** A document of the top level without a name, whose fields are flattened as if it were not there. */
  predicate HasNamelessDocument(doc: seq<Entry>) {
    exists i | 0 <= i < |doc| :: doc[i].name == "" && doc[i].value.Document?
  }

  predicate Plain(doc: seq<Entry>) {
    Distinct(doc) && Dotless(doc)
  }

  /** The document itself as an insert tree: same names, same order, same nesting. */
  function Shape(prefix: string, doc: seq<Entry>): Fields
    decreases doc
  {
    if doc == [] then [] else [Node(doc[0].name, FieldShape(prefix, doc[0]))] + Shape(prefix, doc[1..])
  }

  function FieldShape(prefix: string, entry: Entry): Field
    decreases entry
  {
    var path := PathOf(prefix, entry.name);
    match entry.value
    case Document(nested) => Group(Shape(path, nested))
    case Scalar(_) => Leaf(path)
  }

  /** The columns of a level as (path from this level on, full path). */
  function Paths(prefix: string, doc: seq<Entry>): seq<(string, string)>
    decreases doc
  {
    if doc == [] then [] else FieldPaths(prefix, doc[0]) + Paths(prefix, doc[1..])
  }

  function FieldPaths(prefix: string, entry: Entry): seq<(string, string)>
    decreases entry
  {
    var path := PathOf(prefix, entry.name);
    match entry.value
    case Document(nested) => Under(entry.name, Paths(path, nested))
    case Scalar(_) => [(entry.name, path)]
  }

  function Under(name: string, paths: seq<(string, string)>): (r: seq<(string, string)>)
    ensures |r| == |paths|
    ensures forall i | 0 <= i < |r| :: r[i] == (name + "." + paths[i].0, paths[i].1)
  {
    seq(|paths|, i requires 0 <= i < |paths| => (name + "." + paths[i].0, paths[i].1))
  }

  predicate Fresh(roots: Fields, name: string) {
    forall i | 0 <= i < |roots| :: roots[i].key != name
  }

  lemma {:induction false} InsertAllConcat(roots: Fields, a: seq<(string, string)>, b: seq<(string, string)>)
    ensures InsertAll(roots, a + b) == InsertAll(InsertAll(roots, a), b)
    decreases |a|
  {
    if a == [] {
      assert a + b == b;
    } else {
      assert (a + b)[1..] == a[1..] + b;
      InsertAllConcat(Insert(roots, a[0].0, a[0].1), a[1..], b);
    }
  }

  lemma HeadAndRest(name: string, rest: string)
    requires '.' !in name
    ensures var s := name + "." + rest; Find(s, '.') == Some(|name|) && s[..|name|] == name && s[|name| + 1..] == rest
  {
    FindAfter(name, '.', rest);
  }

  /** Inserting into the last root, when it is the only group of its key. */
  lemma InsertIntoLast(roots: Fields, name: string, children: Fields, rest: string, original: string)
    requires '.' !in name && Fresh(roots, name)
    ensures Insert(roots + [Node(name, Group(children))], name + "." + rest, original)
         == roots + [Node(name, Group(Insert(children, rest, original)))]
  {
    HeadAndRest(name, rest);
    assert (roots + [Node(name, Group(children))])[|roots|].key == name;
    assert FindKey(roots + [Node(name, Group(children))], name) == Some(|roots|);
  }

  lemma {:induction false} InsertGroup(roots: Fields, name: string, children: Fields, paths: seq<(string, string)>)
    requires '.' !in name && Fresh(roots, name)
    ensures InsertAll(roots + [Node(name, Group(children))], Under(name, paths))
         == roots + [Node(name, Group(InsertAll(children, paths)))]
    decreases |paths|
  {
    if paths != [] {
      InsertIntoLast(roots, name, children, paths[0].0, paths[0].1);
      InsertGroup(roots, name, Insert(children, paths[0].0, paths[0].1), paths[1..]);
      assert Under(name, paths)[1..] == Under(name, paths[1..]);
    }
  }

  lemma OpenGroup(roots: Fields, name: string, paths: seq<(string, string)>)
    requires '.' !in name && Fresh(roots, name) && paths != []
    ensures InsertAll(roots, Under(name, paths)) == roots + [Node(name, Group(InsertAll([], paths)))]
  {
    var first := Insert([], paths[0].0, paths[0].1);
    HeadAndRest(name, paths[0].0);
    assert Insert(roots, name + "." + paths[0].0, paths[0].1) == roots + [Node(name, Group(first))];
    InsertGroup(roots, name, first, paths[1..]);
    assert Under(name, paths)[1..] == Under(name, paths[1..]);
  }

  lemma {:induction false} PathsNonEmpty(prefix: string, doc: seq<Entry>)
    requires Plain(doc) && doc != []
    ensures Paths(prefix, doc) != []
    decreases doc
  {
    if doc[0].value.Document? {
      PathsNonEmpty(PathOf(prefix, doc[0].name), doc[0].value.fields);
    }
  }

  lemma PlainFirst(doc: seq<Entry>)
    requires Plain(doc) && doc != []
    ensures Plain([doc[0]]) && Plain(doc[1..])
    ensures forall j | 0 < j < |doc| :: doc[j].name != doc[0].name
  {
    assert [doc[0]][1..] == [];
  }

  /** Inserting a level's columns appends that level's own shape. */
  lemma {:induction false} InsertLevel(roots: Fields, prefix: string, doc: seq<Entry>)
    requires Plain(doc) && forall j | 0 <= j < |doc| :: Fresh(roots, doc[j].name)
    ensures InsertAll(roots, Paths(prefix, doc)) == roots + Shape(prefix, doc)
    decreases doc
  {
    if doc == [] {
      assert roots + [] == roots;
    } else {
      var first := Node(doc[0].name, FieldShape(prefix, doc[0]));
      PlainFirst(doc);
      InsertField(roots, prefix, doc[0]);
      InsertAllConcat(roots, FieldPaths(prefix, doc[0]), Paths(prefix, doc[1..]));
      assert forall j | 0 <= j < |doc[1..]| :: doc[1..][j] == doc[j + 1];
      InsertLevel(roots + [first], prefix, doc[1..]);
      assert roots + ([first] + Shape(prefix, doc[1..])) == roots + [first] + Shape(prefix, doc[1..]);
    }
  }

  lemma {:induction false} InsertField(roots: Fields, prefix: string, entry: Entry)
    requires Plain([entry]) && Fresh(roots, entry.name)
    ensures InsertAll(roots, FieldPaths(prefix, entry)) == roots + [Node(entry.name, FieldShape(prefix, entry))]
    decreases entry
  {
    var path := PathOf(prefix, entry.name);
    match entry.value {
      case Document(nested) =>
        InsertLevel([], path, nested);
        PathsNonEmpty(path, nested);
        OpenGroup(roots, entry.name, Paths(path, nested));
        assert [] + Shape(path, nested) == Shape(path, nested);
      case Scalar(_) =>
        assert [(entry.name, path)][1..] == [];
    }
  }

  /** The two readings of a level's paths agree: same order, same full paths, and each full path is
      the prefix followed by the path from this level on. */
  ghost predicate Spells(prefix: string, paths: seq<(string, string)>, columns: seq<Column>) {
    && |paths| == |columns|
    && forall i | 0 <= i < |paths| :: paths[i].1 == columns[i].path && paths[i].1 == PathOf(prefix, paths[i].0)
  }

  lemma SpellsConcat(prefix: string, a: seq<(string, string)>, b: seq<(string, string)>, c: seq<Column>, d: seq<Column>)
    requires Spells(prefix, a, c) && Spells(prefix, b, d)
    ensures Spells(prefix, a + b, c + d)
  {
  }

  lemma SpellsUnder(prefix: string, name: string, paths: seq<(string, string)>, columns: seq<Column>)
    requires PathOf(prefix, name) != "" && Spells(PathOf(prefix, name), paths, columns)
    ensures Spells(prefix, Under(name, paths), columns)
  {
    forall i | 0 <= i < |paths|
      ensures PathOf(PathOf(prefix, name), paths[i].0) == PathOf(prefix, name + "." + paths[i].0)
    {
      assert prefix + "." + name + "." + paths[i].0 == prefix + "." + (name + "." + paths[i].0);
    }
  }

  lemma {:induction false} PathsSpellColumns(prefix: string, doc: seq<Entry>)
    requires prefix != "" || !HasNamelessDocument(doc)
    ensures Spells(prefix, Paths(prefix, doc), Flatten(prefix, doc))
    decreases doc
  {
    if doc != [] {
      assert forall j | 0 <= j < |doc[1..]| :: doc[1..][j] == doc[j + 1];
      FieldPathsSpellColumns(prefix, doc[0]);
      PathsSpellColumns(prefix, doc[1..]);
      SpellsConcat(prefix, FieldPaths(prefix, doc[0]), Paths(prefix, doc[1..]),
                   FieldColumns(prefix, doc[0]), Flatten(prefix, doc[1..]));
    }
  }

  lemma {:induction false} FieldPathsSpellColumns(prefix: string, entry: Entry)
    requires PathOf(prefix, entry.name) != "" || !entry.value.Document?
    ensures Spells(prefix, FieldPaths(prefix, entry), FieldColumns(prefix, entry))
    decreases entry
  {
    match entry.value {
      case Document(nested) =>
        PathsSpellColumns(PathOf(prefix, entry.name), nested);
        SpellsUnder(prefix, entry.name, Paths(PathOf(prefix, entry.name), nested),
                    Flatten(PathOf(prefix, entry.name), nested));
      case Scalar(_) =>
    }
  }

  function ColumnPaths(columns: seq<Column>): (r: seq<string>)
    ensures |r| == |columns| && forall i | 0 <= i < |r| :: r[i] == columns[i].path
  {
    seq(|columns|, i requires 0 <= i < |columns| => columns[i].path)
  }

  lemma {:induction false} SelfPairedIndex(fields: seq<string>)
    ensures |SelfPaired(fields)| == |fields|
    ensures forall i | 0 <= i < |fields| :: SelfPaired(fields)[i] == (fields[i], fields[i])
  {
    if fields != [] {
      SelfPairedIndex(fields[1..]);
    }
  }

  lemma FlattenThenBuild(doc: seq<Entry>)
    requires Plain(doc) && !HasNamelessDocument(doc)
    ensures Build(ColumnPaths(Flatten("", doc))) == Shape("", doc)
  {
    hide Plain, HasNamelessDocument, Flatten, Shape, InsertAll;
    var fields := ColumnPaths(Flatten("", doc));
    PathsSpellColumns("", doc);
    SelfPairedIndex(fields);
    assert SelfPaired(fields) == Paths("", doc);
    InsertLevel([], "", doc);
    assert [] + Shape("", doc) == Shape("", doc);
  }

  // ----- documents that are not rebuilt

  /** Trees without a dot in a key and without an empty group. */
  predicate DotlessTree(roots: Fields)
    decreases roots
  {
    roots == [] ||
    (&& '.' !in roots[0].key
     && (roots[0].field.Group? ==> roots[0].field.children != [] && DotlessTree(roots[0].field.children))
     && DotlessTree(roots[1..]))
  }

  lemma {:induction false} DotlessIndex(roots: Fields, i: nat)
    requires DotlessTree(roots) && i < |roots|
    ensures DotlessTree([roots[i]])
  {
    if i == 0 {
      assert [roots[0]][1..] == [];
    } else {
      DotlessIndex(roots[1..], i - 1);
    }
  }

  lemma {:induction false} DotlessUpdate(roots: Fields, i: nat, node: Node)
    requires DotlessTree(roots) && i <= |roots| && DotlessTree([node])
    ensures DotlessTree(if i == |roots| then roots + [node] else roots[i := node])
  {
    if i == 0 && roots == [] {
      assert roots + [node] == [node];
    } else if i == 0 {
      assert roots[0 := node][1..] == roots[1..];
    } else {
      DotlessUpdate(roots[1..], i - 1, node);
      assert i < |roots| ==> roots[i := node][1..] == roots[1..][i - 1 := node];
      assert (roots + [node])[1..] == roots[1..] + [node];
    }
  }

  lemma OneDotless(name: string, field: Field)
    requires '.' !in name && (field.Group? ==> field.children != [] && DotlessTree(field.children))
    ensures DotlessTree([Node(name, field)])
  {
    assert [Node(name, field)][1..] == [];
  }

  /** Whatever is inserted, keys stay without dots and groups are never empty. */
  lemma {:induction false} InsertKeepsDotless(roots: Fields, remaining: string, original: string)
    requires DotlessTree(roots)
    ensures DotlessTree(Insert(roots, remaining, original)) && Insert(roots, remaining, original) != []
    decreases |remaining|
  {
    hide DotlessTree;
    var dot := Find(remaining, '.');
    if dot.None? {
      OneDotless(remaining, Leaf(original));
      DotlessUpdate(roots, |roots|, Node(remaining, Leaf(original)));
    } else {
      var head, rest := remaining[..dot.value], remaining[dot.value + 1..];
      var at := FindKey(roots, head);
      if at.Some? && roots[at.value].field.Group? {
        GroupIsDotless(roots, at.value);
        InsertKeepsDotless(roots[at.value].field.children, rest, original);
        OneDotless(head, Group(Insert(roots[at.value].field.children, rest, original)));
        DotlessUpdate(roots, at.value, Node(head, Group(Insert(roots[at.value].field.children, rest, original))));
      } else {
        NothingIsDotless();
        InsertKeepsDotless([], rest, original);
        OneDotless(head, Group(Insert([], rest, original)));
        DotlessUpdate(roots, |roots|, Node(head, Group(Insert([], rest, original))));
      }
    }
  }

  lemma GroupIsDotless(roots: Fields, i: nat)
    requires DotlessTree(roots) && i < |roots| && roots[i].field.Group?
    ensures DotlessTree(roots[i].field.children)
  {
    DotlessIndex(roots, i);
  }

  lemma NothingIsDotless()
    ensures DotlessTree([])
  {
  }

  lemma {:induction false} InsertAllDotless(roots: Fields, paths: seq<(string, string)>)
    requires DotlessTree(roots)
    ensures DotlessTree(InsertAll(roots, paths))
    decreases |paths|
  {
    hide DotlessTree, Insert;
    if paths != [] {
      InsertKeepsDotless(roots, paths[0].0, paths[0].1);
      InsertAllDotless(Insert(roots, paths[0].0, paths[0].1), paths[1..]);
    }
  }

  lemma {:induction false} DotlessShape(prefix: string, doc: seq<Entry>)
    requires DotlessTree(Shape(prefix, doc))
    ensures Dotless(doc)
    decreases doc
  {
    if doc != [] {
      var roots := Shape(prefix, doc);
      assert roots[0] == Node(doc[0].name, FieldShape(prefix, doc[0])) && roots[1..] == Shape(prefix, doc[1..]);
      DotlessShape(prefix, doc[1..]);
      if doc[0].value.Document? {
        DotlessShape(PathOf(prefix, doc[0].name), doc[0].value.fields);
      }
    }
  }

  /** A path whose first key is the empty name of a group. */
  predicate StartsWithDot(path: string) {
    path != "" && path[0] == '.'
  }

  lemma {:induction false} ColumnsUnder(prefix: string, doc: seq<Entry>)
    requires prefix != ""
    ensures forall c <- Flatten(prefix, doc) :: prefix <= c.path
    decreases doc
  {
    if doc != [] {
      ColumnsUnder(prefix, doc[1..]);
      if doc[0].value.Document? {
        ColumnsUnder(PathOf(prefix, doc[0].name), doc[0].value.fields);
      }
    }
  }

  lemma {:induction false} NoDotFirst(doc: seq<Entry>)
    requires Dotless(doc)
    ensures forall c <- Flatten("", doc) :: !StartsWithDot(c.path)
    decreases doc
  {
    if doc != [] {
      NoDotFirst(doc[1..]);
      var name := doc[0].name;
      if doc[0].value.Document? {
        if name == "" {
          NoDotFirst(doc[0].value.fields);
        } else {
          ColumnsUnder(name, doc[0].value.fields);
        }
      }
    }
  }

  predicate NamelessAreLeaves(roots: Fields) {
    forall i | 0 <= i < |roots| :: roots[i].key == "" ==> roots[i].field.Leaf?
  }

  lemma {:induction false} InsertAllNameless(roots: Fields, paths: seq<(string, string)>)
    requires NamelessAreLeaves(roots) && forall i | 0 <= i < |paths| :: !StartsWithDot(paths[i].0)
    ensures NamelessAreLeaves(InsertAll(roots, paths))
    decreases |paths|
  {
    if paths != [] {
      InsertAllNameless(Insert(roots, paths[0].0, paths[0].1), paths[1..]);
    }
  }

  lemma {:induction false} ShapeIndex(prefix: string, doc: seq<Entry>)
    ensures |Shape(prefix, doc)| == |doc|
    ensures forall i | 0 <= i < |doc| :: Shape(prefix, doc)[i] == Node(doc[i].name, FieldShape(prefix, doc[i]))
  {
    hide FieldShape;
    if doc != [] {
      ShapeIndex(prefix, doc[1..]);
    }
  }

  lemma RebuiltIsPlain(doc: seq<Entry>)
    requires Build(ColumnPaths(Flatten("", doc))) == Shape("", doc)
    ensures Dotless(doc) && !HasNamelessDocument(doc)
  {
    hide DotlessTree, Dotless, Flatten, Shape, InsertAll, StartsWithDot;
    var fields := ColumnPaths(Flatten("", doc));
    NothingIsDotless();
    InsertAllDotless([], SelfPaired(fields));
    DotlessShape("", doc);
    NoDotFirst(doc);
    SelfPairedIndex(fields);
    forall i | 0 <= i < |fields| ensures !StartsWithDot(SelfPaired(fields)[i].0) {
      assert Flatten("", doc)[i] in Flatten("", doc);
    }
    InsertAllNameless([], SelfPaired(fields));
    ShapeIndex("", doc);
    NamelessInShape(doc);
  }

  lemma NamelessInShape(doc: seq<Entry>)
    requires |Shape("", doc)| == |doc|
    requires forall i | 0 <= i < |doc| :: Shape("", doc)[i] == Node(doc[i].name, FieldShape("", doc[i]))
    requires NamelessAreLeaves(Shape("", doc))
    ensures !HasNamelessDocument(doc)
  {
    hide Shape;
    forall i | 0 <= i < |doc| ensures !(doc[i].name == "" && doc[i].value.Document?) {
      assert Shape("", doc)[i] == Node(doc[i].name, FieldShape("", doc[i]));
    }
  }

  /** Flattening a document and inserting its columns in order rebuilds the document's tree, names, order
      and nesting, exactly when no name in it has a dot, no sub-document is empty, and no document of
      the top level has the empty name. */
  lemma FlattenThenBuildIff(doc: seq<Entry>)
    requires Distinct(doc)
    ensures Build(ColumnPaths(Flatten("", doc))) == Shape("", doc) <==> Dotless(doc) && !HasNamelessDocument(doc)
  {
    hide Build, Flatten, Shape, Distinct, Dotless, HasNamelessDocument;
    if Dotless(doc) && !HasNamelessDocument(doc) {
      FlattenThenBuild(doc);
    }
    if Build(ColumnPaths(Flatten("", doc))) == Shape("", doc) {
      RebuiltIsPlain(doc);
    }
  }
}
