/** The Elasticsearch connector's partial document: one nested object per dotted column, all of
    them deep-merged. Objects are maps, which is also how they compare equal in the source. */
module MergeJson {
  import opened Text
  import opened DottedPath

  /** A JSON value; everything that is not an object stays a piece of text. */
  datatype Json = Object(members: map<string, Json>) | Other(literal: string)

  /** Deep merge: objects merge key by key, anything else is replaced. */
  function Merge(target: Json, patch: Json): Json
    decreases patch
  {
    if target.Object? && patch.Object? then
      Object(map k | k in target.members.Keys + patch.members.Keys ::
        if k !in patch.members then target.members[k]
        else if k in target.members then Merge(target.members[k], patch.members[k])
        else patch.members[k])
    else patch
  }

  /** Merges member by member, in whatever order the patch lists its keys. */
  method MergeInto(target: Json, patch: Json) returns (merged: Json)
    ensures merged == Merge(target, patch)
    decreases patch
  {
    if !target.Object? || !patch.Object? {
      return patch;
    }
    var members, keys := target.members, patch.members.Keys;
    while keys != {}
      invariant keys <= patch.members.Keys
      invariant members.Keys == target.members.Keys + (patch.members.Keys - keys)
      invariant forall k <- members ::
        members[k] == if k in patch.members && k !in keys then Merge(target, patch).members[k] else target.members[k]
    {
      var key :| key in keys;
      keys := keys - {key};
      if key in members {
        var value := MergeInto(members[key], patch.members[key]);
        members := members[key := value];
      } else {
        members := members[key := patch.members[key]];
      }
    }
    merged := Object(members);
  }

  /** `value` under one object per segment. */
  function Nest(path: seq<string>, value: Json): Json {
    if path == [] then value else Object(map[path[0] := Nest(path[1..], value)])
  }

  /** The source's fold: the last segment wraps the value first. */
  function Wrap(path: seq<string>, value: Json): Json {
    if path == [] then value
    else Wrap(path[..|path| - 1], Object(map[path[|path| - 1] := value]))
  }

  function NestDottedPath(column: string, value: Json): Json {
    Wrap(SplitDots(column), value)
  }

  lemma {:induction false} NestSnoc(path: seq<string>, last: string, value: Json)
    ensures Nest(path + [last], value) == Nest(path, Object(map[last := value]))
  {
    if path == [] {
      assert [last][1..] == [];
    } else {
      assert (path + [last])[1..] == path[1..] + [last];
      NestSnoc(path[1..], last, value);
    }
  }

  lemma {:induction false} WrapIsNest(path: seq<string>, value: Json)
    ensures Wrap(path, value) == Nest(path, value)
  {
    if path != [] {
      var front, last := path[..|path| - 1], path[|path| - 1];
      WrapIsNest(front, Object(map[last := value]));
      NestSnoc(front, last, value);
      assert path == front + [last];
    }
  }

  // ----- looking up a path

  function Lookup(doc: Json, path: seq<string>): Option<Json> {
    if path == [] then Some(doc)
    else if doc.Object? && path[0] in doc.members then Lookup(doc.members[path[0]], path[1..])
    else None
  }

  const Empty := Object(map[])

  /** The members to merge into; a value that is not an object is replaced as a whole. */
  function Members(doc: Json): map<string, Json> {
    if doc.Object? then doc.members else map[]
  }

  function Put(doc: Json, path: seq<string>, value: Json): Json {
    Merge(doc, Nest(path, value))
  }

  /** What a put makes of the member its path starts with. */
  function Member(members: map<string, Json>, path: seq<string>, value: Json): Json
    requires path != []
  {
    if path[0] in members then Put(members[path[0]], path[1..], value) else Nest(path[1..], value)
  }

  /** One level of a put: the head key is put into, everything else stays. */
  lemma PutHead(doc: Json, path: seq<string>, value: Json)
    requires path != []
    ensures Put(doc, path, value) == Object(PutMembers(Members(doc), path, value))
  {
  }

  function PutMembers(members: map<string, Json>, path: seq<string>, value: Json): map<string, Json>
    requires path != []
  {
    members[path[0] := Member(members, path, value)]
  }

  lemma PutTwice(doc: Json, p: seq<string>, v: Json, q: seq<string>, w: Json)
    requires p != [] && q != []
    ensures Put(Put(doc, p, v), q, w) == Object(PutMembers(PutMembers(Members(doc), p, v), q, w))
  {
    PutHead(doc, p, v);
    PutHead(Put(doc, p, v), q, w);
  }

  lemma PutIntoNothing(path: seq<string>, value: Json)
    requires path != []
    ensures Put(Empty, path, value) == Nest(path, value)
  {
    PutHead(Empty, path, value);
  }

  lemma {:induction false} LookupNest(path: seq<string>, value: Json, q: seq<string>)
    ensures path <= q ==> Lookup(Nest(path, value), q) == Lookup(value, q[|path|..])
    ensures Incomparable(path, q) ==> Lookup(Nest(path, value), q) == None
  {
    if path != [] && q != [] && q[0] == path[0] {
      LookupNest(path[1..], value, q[1..]);
      Tails(path, q);
      assert path <= q ==> q[1..][|path| - 1..] == q[|path|..];
    } else if path != [] {
      assert q != [] ==> q[0] != path[0];
    }
  }

  /** Paths with the same head compare as their tails do. */
  lemma Tails(p: seq<string>, q: seq<string>)
    requires p != [] && q != [] && p[0] == q[0]
    ensures (p <= q <==> p[1..] <= q[1..]) && (q <= p <==> q[1..] <= p[1..])
  {
    assert p == [p[0]] + p[1..] && q == [q[0]] + q[1..];
  }

  /** Putting at `p` is seen at `p`, merged with what was there, and nowhere beside `p`. */
  lemma {:induction false} LookupPut(doc: Json, p: seq<string>, value: Json, q: seq<string>)
    requires p != []
    ensures p == q ==>
      Lookup(Put(doc, p, value), q) == Some(if Lookup(doc, p).Some? then Merge(Lookup(doc, p).value, value) else value)
    ensures Incomparable(p, q) ==> Lookup(Put(doc, p, value), q) == Lookup(doc, q)
    decreases |p|
  {
    PutHead(doc, p, value);
    if q != [] && q[0] == p[0] {
      Tails(p, q);
      LookupNest(p[1..], value, q[1..]);
      if doc.Object? && p[0] in doc.members {
        if |p| > 1 {
          LookupPut(doc.members[p[0]], p[1..], value, q[1..]);
        } else {
          assert p[1..] == [] && p <= q;
        }
      } else {
        assert p == q ==> q[1..][|p[1..]|..] == [];
      }
    }
  }

  // ----- the order of columns

  lemma {:induction false} PutsCommute(doc: Json, p: seq<string>, v: Json, q: seq<string>, w: Json)
    requires Incomparable(p, q)
    ensures Put(Put(doc, p, v), q, w) == Put(Put(doc, q, w), p, v)
    decreases |p|
  {
    PutTwice(doc, p, v, q, w);
    PutTwice(doc, q, w, p, v);
    if p[0] == q[0] {
      Tails(p, q);
    }
    MembersCommute(Members(doc), p, v, q, w);
  }

  lemma {:induction false} MembersCommute(m: map<string, Json>, p: seq<string>, v: Json, q: seq<string>, w: Json)
    requires p != [] && q != [] && (p[0] == q[0] ==> Incomparable(p[1..], q[1..]))
    ensures PutMembers(PutMembers(m, p, v), q, w) == PutMembers(PutMembers(m, q, w), p, v)
    decreases |p|, 0
  {
    hide Merge, Nest, Put;
    if p[0] != q[0] {
    } else if p[0] in m {
      PutsCommute(m[p[0]], p[1..], v, q[1..], w);
    } else {
      PutIntoNothing(p[1..], v);
      PutIntoNothing(q[1..], w);
      PutsCommute(Empty, p[1..], v, q[1..], w);
    }
  }

  type Assignment = (seq<string>, Json)

  function PutAll(doc: Json, pairs: seq<Assignment>): Json
    decreases |pairs|
  {
    if pairs == [] then doc else PutAll(Put(doc, pairs[0].0, pairs[0].1), pairs[1..])
  }

  predicate AllIncomparable(pairs: seq<Assignment>) {
    forall i, j | 0 <= i < j < |pairs| :: Incomparable(pairs[i].0, pairs[j].0)
  }

  lemma {:induction false} PutAllConcat(doc: Json, a: seq<Assignment>, b: seq<Assignment>)
    ensures PutAll(doc, a + b) == PutAll(PutAll(doc, a), b)
    decreases |a|
  {
    if a == [] {
      assert a + b == b;
    } else {
      assert (a + b)[1..] == a[1..] + b;
      PutAllConcat(Put(doc, a[0].0, a[0].1), a[1..], b);
    }
  }

  /** One assignment commutes past a run of others. */
  lemma {:induction false} PutFirst(doc: Json, a: seq<Assignment>, x: Assignment)
    requires forall i | 0 <= i < |a| :: Incomparable(a[i].0, x.0)
    ensures Put(PutAll(doc, a), x.0, x.1) == PutAll(Put(doc, x.0, x.1), a)
    decreases |a|
  {
    if a != [] {
      PutFirst(Put(doc, a[0].0, a[0].1), a[1..], x);
      PutsCommute(doc, a[0].0, a[0].1, x.0, x.1);
    }
  }

  /** Where the first element of a permutation stands in the other one. */
  lemma TakeFirst<T>(a: seq<T>, b: seq<T>) returns (front: seq<T>, back: seq<T>)
    requires multiset(a) == multiset(b) && a != []
    ensures b == front + [a[0]] + back && multiset(a[1..]) == multiset(front + back)
  {
    assert a[0] in multiset(b);
    var k :| 0 <= k < |b| && b[k] == a[0];
    front, back := b[..k], b[k + 1..];
    assert b == front + [a[0]] + back;
    assert a == [] + [a[0]] + a[1..] && [] + a[1..] == a[1..];
    RemoveOne(front, a[0], back);
    RemoveOne([], a[0], a[1..]);
  }

  lemma RemoveOne<T>(front: seq<T>, x: T, back: seq<T>)
    ensures multiset(front + back) == multiset(front + [x] + back) - multiset{x}
  {
    assert multiset(front + [x] + back) == multiset(front + [x]) + multiset(back);
    assert multiset(front + [x]) == multiset(front) + multiset{x};
  }

  lemma MoveToFront(doc: Json, front: seq<Assignment>, x: Assignment, back: seq<Assignment>)
    requires forall i | 0 <= i < |front| :: Incomparable(front[i].0, x.0)
    ensures PutAll(doc, front + [x] + back) == PutAll(Put(doc, x.0, x.1), front + back)
  {
    PutAllConcat(doc, front + [x], back);
    PutAllConcat(doc, front, [x]);
    assert [x][1..] == [];
    PutFirst(doc, front, x);
    PutAllConcat(Put(doc, x.0, x.1), front, back);
  }

  lemma WithoutOne(front: seq<Assignment>, x: Assignment, back: seq<Assignment>)
    requires AllIncomparable(front + [x] + back)
    ensures AllIncomparable(front + back)
    ensures forall i | 0 <= i < |front| :: Incomparable(front[i].0, x.0)
  {
    var all, rest := front + [x] + back, front + back;
    assert all[|front|] == x;
    assert forall i | 0 <= i < |front| :: front[i] == all[i];
    assert forall i | 0 <= i < |rest| :: rest[i] == all[if i < |front| then i else i + 1];
  }

  lemma {:induction false} PutAllPermutes(doc: Json, a: seq<Assignment>, b: seq<Assignment>)
    requires multiset(a) == multiset(b) && AllIncomparable(b)
    ensures PutAll(doc, a) == PutAll(doc, b)
    decreases |a|
  {
    if a == [] {
      assert |multiset(b)| == 0;
    } else {
      var front, back := TakeFirst(a, b);
      WithoutOne(front, a[0], back);
      PutAllPermutes(Put(doc, a[0].0, a[0].1), a[1..], front + back);
      MoveToFront(doc, front, a[0], back);
    }
  }

  // ----- the partial document of a row edit

  function Assignments(pairs: seq<(string, string)>, infer: string -> Json): (r: seq<Assignment>)
    ensures |r| == |pairs|
    ensures forall i | 0 <= i < |r| :: r[i] == (SplitDots(pairs[i].0), infer(pairs[i].1))
  {
    seq(|pairs|, i requires 0 <= i < |pairs| => (SplitDots(pairs[i].0), infer(pairs[i].1)))
  }

  /** The document of a `SetValues` edit. `infer` turns a typed text into a JSON value. */
  method PartialDocument(pairs: seq<(string, string)>, infer: string -> Json) returns (doc: Json)
    ensures doc == PutAll(Empty, Assignments(pairs, infer))
  {
    doc := Empty;
    for i := 0 to |pairs|
      invariant PutAll(Empty, Assignments(pairs, infer)) == PutAll(doc, Assignments(pairs, infer)[i..])
    {
      ghost var rest := Assignments(pairs, infer)[i..];
      assert rest[1..] == Assignments(pairs, infer)[i + 1..];
      WrapIsNest(SplitDots(pairs[i].0), infer(pairs[i].1));
      doc := MergeInto(doc, NestDottedPath(pairs[i].0, infer(pairs[i].1)));
    }
  }

  lemma {:induction false} LookupPutAll(doc: Json, pairs: seq<Assignment>, q: seq<string>)
    requires forall i | 0 <= i < |pairs| :: pairs[i].0 != [] && Incomparable(pairs[i].0, q)
    ensures Lookup(PutAll(doc, pairs), q) == Lookup(doc, q)
    decreases |pairs|
  {
    if pairs != [] {
      LookupPut(doc, pairs[0].0, pairs[0].1, q);
      LookupPutAll(Put(doc, pairs[0].0, pairs[0].1), pairs[1..], q);
    }
  }

  /** Every column holds its own value, untouched by the columns before and after it. */
  lemma {:induction false} ColumnKeepsValue(doc: Json, pairs: seq<Assignment>, i: nat)
    requires AllIncomparable(pairs) && i < |pairs| && forall j | 0 <= j < |pairs| :: pairs[j].0 != []
    requires Lookup(doc, pairs[i].0) == None
    ensures Lookup(PutAll(doc, pairs), pairs[i].0) == Some(pairs[i].1)
    decreases i
  {
    LookupPut(doc, pairs[0].0, pairs[0].1, pairs[i].0);
    var next := Put(doc, pairs[0].0, pairs[0].1);
    if i == 0 {
      LookupPutAll(next, pairs[1..], pairs[0].0);
    } else {
      ColumnKeepsValue(next, pairs[1..], i - 1);
    }
  }

  /** Nothing lies beside the columns: every path in the document leads to one or below one. */
  lemma NothingElse(pairs: seq<Assignment>, q: seq<string>)
    requires forall j | 0 <= j < |pairs| :: pairs[j].0 != []
    requires Lookup(PutAll(Empty, pairs), q).Some? && q != []
    ensures exists i | 0 <= i < |pairs| :: !Incomparable(pairs[i].0, q)
  {
    if forall i | 0 <= i < |pairs| :: Incomparable(pairs[i].0, q) {
      LookupPutAll(Empty, pairs, q);
    }
  }

  /** A row edit over columns none of which leads through another: each column's path holds its
      value, no other path is in the document, and the order of the columns does not matter. */
  lemma PartialDocumentCorrect(pairs: seq<(string, string)>, reordered: seq<(string, string)>, infer: string -> Json)
    requires forall i, j | 0 <= i < j < |pairs| :: Apart(pairs[i].0, pairs[j].0)
    requires multiset(pairs) == multiset(reordered)
    ensures var doc := PutAll(Empty, Assignments(pairs, infer));
      && (forall i | 0 <= i < |pairs| :: Lookup(doc, SplitDots(pairs[i].0)) == Some(infer(pairs[i].1)))
      && (forall q | q != [] && Lookup(doc, q).Some? ::
            exists i | 0 <= i < |pairs| :: !Incomparable(SplitDots(pairs[i].0), q))
      && PutAll(Empty, Assignments(reordered, infer)) == doc
  {
    var assignments := Assignments(pairs, infer);
    var doc := PutAll(Empty, assignments);
    forall i, j | 0 <= i < j < |pairs| ensures Incomparable(SplitDots(pairs[i].0), SplitDots(pairs[j].0)) {
      ApartIff(pairs[i].0, pairs[j].0);
    }
    forall i | 0 <= i < |pairs| ensures Lookup(doc, SplitDots(pairs[i].0)) == Some(infer(pairs[i].1)) {
      ColumnKeepsValue(Empty, assignments, i);
    }
    forall q | q != [] && Lookup(doc, q).Some?
      ensures exists i | 0 <= i < |pairs| :: !Incomparable(SplitDots(pairs[i].0), q)
    {
      NothingElse(assignments, q);
      var i :| 0 <= i < |pairs| && !Incomparable(assignments[i].0, q);
      assert !Incomparable(SplitDots(pairs[i].0), q);
    }
    AssignmentsPermute(reordered, pairs, infer);
    PutAllPermutes(Empty, Assignments(reordered, infer), assignments);
  }

  lemma {:induction false} AssignmentsPermute(a: seq<(string, string)>, b: seq<(string, string)>, infer: string -> Json)
    requires multiset(a) == multiset(b)
    ensures multiset(Assignments(a, infer)) == multiset(Assignments(b, infer))
    decreases |a|
  {
    if a == [] {
      assert |multiset(b)| == 0;
    } else {
      var front, back := TakeFirst(a, b);
      AssignmentsPermute(a[1..], front + back, infer);
      AssignmentsConcat(front, back, infer);
      AssignmentsConcat(front + [a[0]], back, infer);
      AssignmentsConcat(front, [a[0]], infer);
      AssignmentsConcat([a[0]], a[1..], infer);
      assert a == [a[0]] + a[1..];
    }
  }

  lemma AssignmentsConcat(a: seq<(string, string)>, b: seq<(string, string)>, infer: string -> Json)
    ensures Assignments(a + b, infer) == Assignments(a, infer) + Assignments(b, infer)
  {
  }
}
