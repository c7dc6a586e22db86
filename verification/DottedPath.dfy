/** Dotted column names as key paths. */
module DottedPath {
  import opened Text

  /** The key path a dotted name spells. */
  function SplitDots(s: string): (r: seq<string>)
    ensures r != []
    decreases |s|
  {
    var dot := Find(s, '.');
    if dot.None? then [s] else [s[..dot.value]] + SplitDots(s[dot.value + 1..])
  }

  lemma AtDot(s: string, dot: nat)
    requires dot < |s| && s[dot] == '.'
    ensures s == s[..dot] + "." + s[dot + 1..]
  {
  }

  lemma FirstKey(s: string)
    ensures var dot := Find(s, '.'); var path := SplitDots(s);
      if dot.None? then path == [s] && '.' !in s
      else path[0] == s[..dot.value] && path[1..] == SplitDots(s[dot.value + 1..]) && |path| > 1
           && s == path[0] + "." + s[dot.value + 1..] && '.' !in path[0]
  {
    hide Find;
    var dot := Find(s, '.');
    if dot.Some? {
      AtDot(s, dot.value);
    }
  }

  /** Neither path leads through the other. */
  predicate Incomparable(a: seq<string>, b: seq<string>) {
    !(a <= b) && !(b <= a)
  }

  /** `a` is `b`, or the name of something that `b` lies in. */
  predicate LeadsTo(a: string, b: string) {
    a == b || a + "." <= b
  }

  /** Neither of two names is the other one or lies in it. */
  predicate Apart(a: string, b: string) {
    !LeadsTo(a, b) && !LeadsTo(b, a)
  }

  lemma BehindHead(head: string, a: string, b: string)
    ensures LeadsTo(head + "." + a, head + "." + b) <==> LeadsTo(a, b)
  {
    var n := |head| + 1;
    var x, y := head + "." + a, head + "." + b;
    assert x[n..] == a && y[n..] == b;
    assert (x + ".")[n..] == a + ".";
    if a + "." <= b {
      assert x + "." == head + "." + (a + ".");
      assert y[..|x| + 1] == head + "." + b[..|a| + 1];
    }
    if x + "." <= y {
      assert y[n..][..|a| + 1] == (x + ".")[n..];
    }
  }

  lemma LeadsToHead(a: string, head: string, rest: string)
    requires '.' !in a && '.' !in head
    ensures LeadsTo(a, head + "." + rest) <==> a == head
    ensures LeadsTo(a, head) <==> a == head
  {
    var b := head + "." + rest;
    assert b[..|head| + 1] == head + "." && b[|head|] == '.';
    if a + "." <= b {
      assert b[|a|] == '.' && b[..|a|] == a && b[..|head|] == head;
    }
    assert (a + ".")[|a|] == '.';
  }

  lemma NotIntoShorter(a: string, b: string)
    requires '.' in a && '.' !in b
    ensures !LeadsTo(a, b)
  {
    var i :| 0 <= i < |a| && a[i] == '.';
    assert (a + ".")[i] == '.';
  }

  /** In terms of names: one path leads through another when the name does. */
  lemma {:induction false} LeadsToIff(a: string, b: string)
    ensures SplitDots(a) <= SplitDots(b) <==> LeadsTo(a, b)
    decreases |a|
  {
    hide SplitDots, LeadsTo;
    FirstKey(a);
    FirstKey(b);
    var i, j := Find(a, '.'), Find(b, '.');
    var p, q := SplitDots(a), SplitDots(b);
    if i.None? {
      LeadsToHead(a, q[0], if j.Some? then b[j.value + 1..] else "");
    } else if j.None? {
      NotIntoShorter(a, b);
    } else {
      var a', b' := a[i.value + 1..], b[j.value + 1..];
      LeadsToIff(a', b');
      PrefixTail(p, q);
      if p[0] == q[0] {
        BehindHead(p[0], a', b');
      } else {
        DifferentHeads(p[0], a', q[0], b');
      }
    }
  }

  lemma PrefixTail(p: seq<string>, q: seq<string>)
    requires p != [] && q != []
    ensures p <= q <==> p[0] == q[0] && p[1..] <= q[1..]
  {
    assert p == [p[0]] + p[1..] && q == [q[0]] + q[1..];
  }

  lemma DifferentHeads(x: string, a: string, y: string, b: string)
    requires x != y && '.' !in x && '.' !in y
    ensures !LeadsTo(x + "." + a, y + "." + b)
  {
    var s, t := x + "." + a, y + "." + b;
    assert s[..|x|] == x && t[..|y|] == y && s[|x|] == '.' && t[|y|] == '.';
    assert (s + ".")[..|s|] == s;
    FirstDots(x, y, s, t);
  }

  lemma FirstDots(x: string, y: string, s: string, t: string)
    requires x != y && '.' !in x && '.' !in y
    requires |x| < |s| && |y| < |t| && s[..|x|] == x && t[..|y|] == y && s[|x|] == '.' && t[|y|] == '.'
    ensures !(s <= t)
  {
    if |x| < |y| {
      assert y[|x|] == t[|x|];
    } else if |x| > |y| {
      assert x[|y|] == s[|y|];
    } else {
      assert s[..|x|] != t[..|x|];
    }
  }

  lemma ApartIff(a: string, b: string)
    ensures Incomparable(SplitDots(a), SplitDots(b)) <==> Apart(a, b)
  {
    hide SplitDots, LeadsTo;
    LeadsToIff(a, b);
    LeadsToIff(b, a);
  }
}
