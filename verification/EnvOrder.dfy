/** The order in which a walk by path components meets the joined paths. */
module EnvOrder {
  import opened Prelude
  import opened EnvTree

  lemma {:induction false} SlashOrder(s: string, rest: string, t: string)
    requires (s == "" || s[0] == '/') && rest != "" && rest[0] != '/'
    ensures Less(s, rest + t) <==> !(s != "" && rest[0] < '/')
    ensures Less(s, rest + t) || Less(rest + t, s)
  {
    assert (rest + t)[0] == rest[0];
  }

  lemma {:induction false} NameOrder(a: string, b: string, s: string, t: string)
    requires Less(a, b) && ValidName(b) && (s == "" || s[0] == '/')
    ensures Less(a + s, b + t) <==> !(s != "" && ProperPrefix(a, b) && b[|a|] < '/')
    ensures Less(a + s, b + t) || Less(b + t, a + s)
  {
    if ProperPrefix(a, b) {
      var rest := b[|a|..];
      assert b + t == a + (rest + t);
      LessAfterPrefix(a, s, rest + t);
      LessAfterPrefix(a, rest + t, s);
      SlashOrder(s, rest, t);
    } else {
      LessBeforeSuffix(a, b, s, t);
    }
  }

  lemma {:induction false} DifferentAfter(p: string, a: string, b: string)
    requires Less(a, b) || Less(b, a)
    ensures p + a != p + b
  {
    LessIrreflexive(a);
    assert (p + a)[|p|..] == a && (p + b)[|p|..] == b;
  }

  /** Two paths that part at two sibling names: only a prefix and a small next character reverse them. */
  lemma {:induction false} SiblingOrder(prefix: Path, a: string, b: string, x: Path, y: Path)
    requires Less(a, b) && ValidName(b)
    ensures Less(Join(prefix + ([a] + x)), Join(prefix + ([b] + y))) <==>
              !(x != [] && ProperPrefix(a, b) && b[|a|] < '/')
    ensures Join(prefix + ([a] + x)) != Join(prefix + ([b] + y))
  {
    LessAfterParts(prefix, [a] + x, [b] + y);
    JoinAfter(prefix, [a] + x);
    JoinAfter(prefix, [b] + y);
    assert ([a] + x)[1..] == x && ([b] + y)[1..] == y;
    assert x == [] || Tail(x)[0] == '/';
    NameOrder(a, b, Tail(x), Tail(y));
    DifferentAfter(Slashed(prefix), a + Tail(x), b + Tail(y));
  }

  /** e lies below the child at prefix, strictly so when that is a directory. */
  ghost predicate Below(e: Entry, prefix: Path, child: Child, rest: Path) {
    e.path == prefix + ([child.name] + rest) && (rest != [] <==> child.node.Dir?)
  }

  lemma {:induction false} LeafOfOneChild(prefix: Path, children: seq<Child>, e: Entry) returns (j: nat, rest: Path)
    requires e in Leaves(prefix, children)
    ensures j < |children| && e in LeavesOf(Here(prefix, children[j])) && Below(e, prefix, children[j], rest)
    decreases children
  {
    if e in LeavesOf(Here(prefix, children[0])) {
      j := 0;
      rest := LeafPath(prefix, children[0], e);
    } else {
      j, rest := LeafOfOneChild(prefix, children[1..], e);
      j := j + 1;
    }
  }

  lemma {:induction false} LeafPath(prefix: Path, child: Child, e: Entry) returns (rest: Path)
    requires e in LeavesOf(Here(prefix, child))
    ensures Below(e, prefix, child, rest)
    decreases child
  {
    if child.node.Dir? {
      var j, deeper := LeafOfOneChild(prefix + [child.name], child.node.children, e);
      rest := [child.node.children[j].name] + deeper;
      assert prefix + [child.name] + rest == prefix + ([child.name] + rest);
    } else {
      rest := [];
      assert prefix + [child.name] == prefix + ([child.name] + []);
    }
  }

  // ---- no two entries share a joined path -----------------------------------------------------------

  predicate Apart(x: Entry, y: Entry) {
    x.path != [] && y.path != [] && Join(x.path) != Join(y.path)
  }

  ghost predicate AllApart(es: seq<Entry>) {
    forall i, j :: 0 <= i < j < |es| ==> Apart(es[i], es[j])
  }

  lemma {:induction false} FirstChildApart(prefix: Path, children: seq<Child>, x: Entry, y: Entry)
    requires WellFormed(children) && children != []
    requires x in LeavesOf(Here(prefix, children[0])) && y in Leaves(prefix, children[1..])
    ensures Apart(x, y)
  {
    var rx := LeafPath(prefix, children[0], x);
    var j, ry := LeafOfOneChild(prefix, children[1..], y);
    SiblingOrder(prefix, children[0].name, children[1..][j].name, rx, ry);
  }

  lemma {:induction false} LeavesAreApart(prefix: Path, children: seq<Child>)
    requires WellFormed(children)
    ensures AllApart(Leaves(prefix, children))
    decreases children
  {
    if children != [] {
      var first, later := LeavesOf(Here(prefix, children[0])), Leaves(prefix, children[1..]);
      WellFormedRest(children);
      LeavesAreApart(prefix, children[1..]);
      if children[0].node.Dir? {
        LeavesAreApart(prefix + [children[0].name], children[0].node.children);
      }
      forall i, j | 0 <= i < |first| && 0 <= j < |later| ensures Apart(first[i], later[j]) {
        FirstChildApart(prefix, children, first[i], later[j]);
      }
    }
  }

  lemma {:induction false} WellFormedRest(children: seq<Child>)
    requires WellFormed(children) && children != []
    ensures WellFormed(children[1..])
  {
  }
}
