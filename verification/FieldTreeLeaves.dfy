/** What the insert tree keeps of its input paths: every leaf, and when one key means one group. */
module FieldTreeLeaves {
  import opened Text
  import opened FieldTree
  import opened DottedPath

  // ----- conservation of leaves

  /** How many leaves of the tree sit at key path `path` and carry `original`. */
  function LeafCount(roots: Fields, path: seq<string>, original: string): nat
    decreases roots
  {
    if roots == [] then 0
    else NodeCount(roots[0].key, roots[0].field, path, original) + LeafCount(roots[1..], path, original)
  }

  function NodeCount(key: string, field: Field, path: seq<string>, original: string): nat
    decreases field
  {
    if path == [] || path[0] != key then 0
    else
      match field
      case Leaf(o) => if path == [key] && o == original then 1 else 0
      case Group(children) => LeafCount(children, path[1..], original)
  }

  lemma {:induction false} LeafCountConcat(a: Fields, b: Fields, path: seq<string>, original: string)
    ensures LeafCount(a + b, path, original) == LeafCount(a, path, original) + LeafCount(b, path, original)
  {
    if a == [] {
      assert a + b == b;
    } else {
      assert (a + b)[1..] == a[1..] + b;
      LeafCountConcat(a[1..], b, path, original);
    }
  }

  lemma LeafCountLast(roots: Fields, key: string, field: Field, path: seq<string>, original: string)
    ensures LeafCount(roots + [Node(key, field)], path, original)
         == LeafCount(roots, path, original) + NodeCount(key, field, path, original)
  {
    LeafCountConcat(roots, [Node(key, field)], path, original);
    assert [Node(key, field)][1..] == [];
  }

  lemma LeafCountUpdate(roots: Fields, i: nat, field: Field, path: seq<string>, original: string)
    requires i < |roots|
    ensures LeafCount(roots[i := Node(roots[i].key, field)], path, original)
         == LeafCount(roots, path, original) - NodeCount(roots[i].key, roots[i].field, path, original)
            + NodeCount(roots[i].key, field, path, original)
  {
    var key := roots[i].key;
    assert roots == roots[..i] + [Node(key, roots[i].field)] + roots[i + 1..];
    assert roots[i := Node(key, field)] == roots[..i] + [Node(key, field)] + roots[i + 1..];
    LeafCountConcat(roots[..i] + [Node(key, roots[i].field)], roots[i + 1..], path, original);
    LeafCountConcat(roots[..i] + [Node(key, field)], roots[i + 1..], path, original);
    LeafCountLast(roots[..i], key, roots[i].field, path, original);
    LeafCountLast(roots[..i], key, field, path, original);
  }

  /** Inserting adds exactly one leaf, at the path the name spells. */
  lemma {:induction false} InsertAddsOneLeaf(roots: Fields, remaining: string, original: string, path: seq<string>,
                                             o: string)
    ensures LeafCount(Insert(roots, remaining, original), path, o)
         == LeafCount(roots, path, o) + if path == SplitDots(remaining) && o == original then 1 else 0
    decreases |remaining|
  {
    var dot := Find(remaining, '.');
    if dot.None? {
      LeafCountLast(roots, remaining, Leaf(original), path, o);
    } else {
      var head, rest := remaining[..dot.value], remaining[dot.value + 1..];
      var at := FindKey(roots, head);
      var down := if path == [] then [] else path[1..];
      assert path == SplitDots(remaining) <==> path != [] && path[0] == head && down == SplitDots(rest);
      if at.Some? && roots[at.value].field.Group? {
        var children := roots[at.value].field.children;
        InsertAddsOneLeaf(children, rest, original, down, o);
        LeafCountUpdate(roots, at.value, Group(Insert(children, rest, original)), path, o);
      } else {
        InsertAddsOneLeaf([], rest, original, down, o);
        LeafCountLast(roots, head, Group(Insert([], rest, original)), path, o);
      }
    }
  }

  /** How many of the input names are `original` and spell `path`. */
  function NameCount(fields: seq<string>, path: seq<string>, original: string): nat {
    if fields == [] then 0
    else
      var here := if SplitDots(fields[0]) == path && fields[0] == original then 1 else 0;
      here + NameCount(fields[1..], path, original)
  }

  lemma {:induction false} InsertAllAddsLeaves(roots: Fields, fields: seq<string>, path: seq<string>, o: string)
    ensures LeafCount(InsertAll(roots, SelfPaired(fields)), path, o)
      == LeafCount(roots, path, o) + NameCount(fields, path, o)
    decreases |fields|
  {
    if fields != [] {
      InsertAddsOneLeaf(roots, fields[0], fields[0], path, o);
      InsertAllAddsLeaves(Insert(roots, fields[0], fields[0]), fields[1..], path, o);
      assert SelfPaired(fields)[1..] == SelfPaired(fields[1..]);
    }
  }

  /** For any list of names the leaves are exactly the input, each at the key path its name spells. */
  lemma LeavesAreInput(fields: seq<string>, path: seq<string>, original: string)
    ensures LeafCount(Build(fields), path, original) == NameCount(fields, path, original)
  {
    InsertAllAddsLeaves([], fields, path, original);
  }

  // ----- one key, one entry

  /** No level of the tree has two entries with the same key. */
  predicate UniqueKeys(roots: Fields)
    decreases roots
  {
    roots == [] ||
    (&& (forall j | 0 < j < |roots| :: roots[j].key != roots[0].key)
     && UniqueBelow(roots[0].field) && UniqueKeys(roots[1..]))
  }

  predicate UniqueBelow(field: Field)
    decreases field
  {
    match field
    case Leaf(_) => true
    case Group(children) => UniqueKeys(children)
  }

  predicate PairwiseIncomparable(fields: seq<string>) {
    forall i, j | 0 <= i < j < |fields| :: Incomparable(SplitDots(fields[i]), SplitDots(fields[j]))
  }

  /** No name is another one or the name of something that another one lies in. */
  predicate AllApart(fields: seq<string>) {
    forall i, j | 0 <= i < j < |fields| :: Apart(fields[i], fields[j])
  }

  lemma PathsApart(fields: seq<string>)
    ensures PairwiseIncomparable(fields) <==> AllApart(fields)
  {
    hide Apart, Incomparable, SplitDots;
    forall i, j | 0 <= i < j < |fields|
      ensures Incomparable(SplitDots(fields[i]), SplitDots(fields[j])) <==> Apart(fields[i], fields[j])
    {
      ApartIff(fields[i], fields[j]);
    }
  }

  /** There is room for a leaf at `path`: its last key is unused, and on the way there are only groups. */
  predicate Room(roots: Fields, path: seq<string>)
    requires path != []
    decreases |path|
  {
    var at := FindKey(roots, path[0]);
    at.None? || (|path| > 1 && roots[at.value].field.Group? && Room(roots[at.value].field.children, path[1..]))
  }

  lemma {:induction false} UniqueIndex(roots: Fields)
    ensures UniqueKeys(roots) <==>
      (&& (forall i, j | 0 <= i < j < |roots| :: roots[i].key != roots[j].key)
       && (forall i | 0 <= i < |roots| :: UniqueBelow(roots[i].field)))
  {
    if roots != [] {
      UniqueIndex(roots[1..]);
      assert roots == [roots[0]] + roots[1..];
    }
  }

  lemma {:induction false} FindKeyAppend(roots: Fields, key: string, field: Field, sought: string)
    ensures FindKey(roots + [Node(key, field)], sought)
      == if FindKey(roots, sought).Some? then FindKey(roots, sought)
         else if sought == key then Some(|roots|) else None
  {
    if roots == [] {
      assert [Node(key, field)][1..] == [];
    } else {
      assert (roots + [Node(key, field)])[1..] == roots[1..] + [Node(key, field)];
      FindKeyAppend(roots[1..], key, field, sought);
    }
  }

  lemma FindKeyUpdate(roots: Fields, i: nat, field: Field, sought: string)
    requires i < |roots|
    ensures FindKey(roots[i := Node(roots[i].key, field)], sought) == FindKey(roots, sought)
  {
    var a, b := FindKey(roots, sought), FindKey(roots[i := Node(roots[i].key, field)], sought);
    var updated := roots[i := Node(roots[i].key, field)];
    assert forall j | 0 <= j < |roots| :: updated[j].key == roots[j].key;
  }

  lemma {:induction false} InsertKeepsUnique(roots: Fields, remaining: string, original: string)
    requires UniqueKeys(roots) && Room(roots, SplitDots(remaining))
    ensures UniqueKeys(Insert(roots, remaining, original))
    decreases |remaining|
  {
    UniqueIndex(roots);
    UniqueIndex(Insert(roots, remaining, original));
    var dot := Find(remaining, '.');
    if dot.Some? {
      var head, rest := remaining[..dot.value], remaining[dot.value + 1..];
      assert SplitDots(remaining)[1..] == SplitDots(rest);
      var at := FindKey(roots, head);
      if at.Some? {
        InsertKeepsUnique(roots[at.value].field.children, rest, original);
      } else {
        InsertKeepsUnique([], rest, original);
      }
    }
  }

  /** Inserting elsewhere leaves the room for a path that is neither above nor below. */
  lemma {:induction false} InsertKeepsRoom(roots: Fields, remaining: string, original: string, path: seq<string>)
    requires path != [] && Room(roots, path) && Incomparable(SplitDots(remaining), path)
    ensures Room(Insert(roots, remaining, original), path)
    decreases |remaining|
  {
    hide FindKey, Find;
    var dot := Find(remaining, '.');
    if dot.None? {
      FindKeyAppend(roots, remaining, Leaf(original), path[0]);
      assert path[0] == remaining ==> SplitDots(remaining) <= path;
    } else {
      var head, rest := remaining[..dot.value], remaining[dot.value + 1..];
      var at := FindKey(roots, head);
      if path[0] == head {
        BelowHead(head, SplitDots(rest), path);
      }
      if at.Some? && roots[at.value].field.Group? {
        var children := roots[at.value].field.children;
        FindKeyUpdate(roots, at.value, Group(Insert(children, rest, original)), path[0]);
        if path[0] == head {
          InsertKeepsRoom(children, rest, original, path[1..]);
        }
      } else {
        FindKeyAppend(roots, head, Group(Insert([], rest, original)), path[0]);
        if path[0] == head {
          InsertKeepsRoom([], rest, original, path[1..]);
        }
      }
    }
  }

  lemma BelowHead(head: string, split: seq<string>, path: seq<string>)
    requires path != [] && path[0] == head && Incomparable([head] + split, path)
    ensures |path| > 1 && Incomparable(split, path[1..])
  {
    assert path == [head] + path[1..];
    assert |path| == 1 ==> path <= [head] + split;
    assert split <= path[1..] ==> [head] + split <= path;
    assert path[1..] <= split ==> path <= [head] + split;
  }

  lemma {:induction false} InsertAllKeepsUnique(roots: Fields, fields: seq<string>)
    requires UniqueKeys(roots) && PairwiseIncomparable(fields)
    requires forall f <- fields :: Room(roots, SplitDots(f))
    ensures UniqueKeys(InsertAll(roots, SelfPaired(fields)))
    decreases |fields|
  {
    if fields != [] {
      var next := Insert(roots, fields[0], fields[0]);
      InsertKeepsUnique(roots, fields[0], fields[0]);
      forall f | f in fields[1..] ensures Room(next, SplitDots(f)) {
        InsertKeepsRoom(roots, fields[0], fields[0], SplitDots(f));
      }
      InsertAllKeepsUnique(next, fields[1..]);
      assert SelfPaired(fields)[1..] == SelfPaired(fields[1..]);
    }
  }

  /** In a tree with unique keys, a leaf has no other leaf at its path or below it. */
  lemma {:induction false} OneLeafPerPath(roots: Fields, p: seq<string>, o: string, q: seq<string>, o': string)
    requires UniqueKeys(roots) && p <= q && LeafCount(roots, p, o) > 0 && LeafCount(roots, q, o') > 0
    ensures p == q && o == o' && LeafCount(roots, p, o) == 1
    decreases roots
  {
    NoLeafWithoutPath(roots, o);
    var key := p[0];
    if roots[0].key == key {
      NoLeafElsewhere(roots[1..], key, p, o);
      NoLeafElsewhere(roots[1..], key, q, o');
      match roots[0].field {
        case Leaf(_) =>
        case Group(children) => OneLeafPerPath(children, p[1..], o, q[1..], o');
      }
    } else {
      OneLeafPerPath(roots[1..], p, o, q, o');
    }
  }

  lemma {:induction false} NoLeafWithoutPath(roots: Fields, o: string)
    ensures LeafCount(roots, [], o) == 0
  {
    if roots != [] {
      NoLeafWithoutPath(roots[1..], o);
    }
  }

  lemma {:induction false} NoLeafElsewhere(roots: Fields, key: string, path: seq<string>, o: string)
    requires path != [] && path[0] == key && forall j | 0 <= j < |roots| :: roots[j].key != key
    ensures LeafCount(roots, path, o) == 0
  {
    if roots != [] {
      NoLeafElsewhere(roots[1..], key, path, o);
    }
  }

  lemma {:induction false} NameCounted(fields: seq<string>, i: nat)
    requires i < |fields|
    ensures NameCount(fields, SplitDots(fields[i]), fields[i]) > 0
    ensures forall j | i < j < |fields| && fields[j] == fields[i] ::
              NameCount(fields, SplitDots(fields[i]), fields[i]) > 1
  {
    if i > 0 {
      NameCounted(fields[1..], i - 1);
    } else {
      forall j | 0 < j < |fields| && fields[j] == fields[0]
        ensures NameCount(fields, SplitDots(fields[0]), fields[0]) > 1
      {
        NameCounted(fields[1..], j - 1);
      }
    }
  }

  /** Dotted names sharing a prefix end up in one object, with no key written twice, exactly when no
      name is another one or leads through another one. */
  lemma UniqueKeysIff(fields: seq<string>)
    ensures UniqueKeys(Build(fields)) <==> AllApart(fields)
  {
    PathsApart(fields);
    if PairwiseIncomparable(fields) {
      InsertAllKeepsUnique([], fields);
    }
    if UniqueKeys(Build(fields)) {
      forall i, j | 0 <= i < j < |fields| ensures Incomparable(SplitDots(fields[i]), SplitDots(fields[j])) {
        NameCounted(fields, i);
        NameCounted(fields, j);
        LeavesAreInput(fields, SplitDots(fields[i]), fields[i]);
        LeavesAreInput(fields, SplitDots(fields[j]), fields[j]);
        if SplitDots(fields[i]) <= SplitDots(fields[j]) {
          OneLeafPerPath(Build(fields), SplitDots(fields[i]), fields[i], SplitDots(fields[j]), fields[j]);
        } else if SplitDots(fields[j]) <= SplitDots(fields[i]) {
          OneLeafPerPath(Build(fields), SplitDots(fields[j]), fields[j], SplitDots(fields[i]), fields[i]);
        }
      }
    }
  }

  lemma OpensLeaf(roots: Fields, name: string, original: string)
    requires '.' !in name
    ensures Insert(roots, name, original) == roots + [Node(name, Leaf(original))]
  {
  }

  /** A leaf of the same key that comes first hides any group behind it. */
  lemma OpensGroup(roots: Fields, head: string, rest: string, original: string)
    requires '.' !in head && '.' !in rest && roots != [] && roots[0] == Node(head, Leaf(head))
    ensures Insert(roots, head + "." + rest, original) == roots + [Node(head, Group([Node(rest, Leaf(original))]))]
  {
    HeadAndRest(head, rest);
    OpensLeaf([], rest, original);
    FirstFound(roots);
    hide Find, FindKey;
    var leaf := Node(rest, Leaf(original));
    assert [] + [leaf] == [leaf];
    assert Insert(roots, head + "." + rest, original) == roots + [Node(head, Group(Insert([], rest, original)))];
  }

  lemma FirstFound(roots: Fields)
    requires roots != []
    ensures FindKey(roots, roots[0].key) == Some(0)
  {
  }

  /** The failing family, smallest case: `a` is also an object, so `a` is written three times and
      the two names below it land in different objects. */
  lemma SharedPrefixSplit()
    ensures Build(["a", "a.b", "a.c"])
         == [Node("a", Leaf("a")), Node("a", Group([Node("b", Leaf("a.b"))])),
             Node("a", Group([Node("c", Leaf("a.c"))]))]
  {
    hide Insert;
    assert "a" + "." + "b" == "a.b" && "a" + "." + "c" == "a.c";
    var one := [Node("a", Leaf("a"))];
    var two := one + [Node("a", Group([Node("b", Leaf("a.b"))]))];
    OpensLeaf([], "a", "a");
    assert [] + one == one;
    OpensGroup(one, "a", "b", "a.b");
    OpensGroup(two, "a", "c", "a.c");
  }
}
