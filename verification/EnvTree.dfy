/** Environment trees of benchmark_env.py as values, with the order of strings and of paths. */
module EnvTree {
  import opened Prelude

  datatype Meta = Meta(mode: nat, times: int)

  /** What `stat` finds at a path; the children of a directory in the order of `sorted(os.listdir(...))`. */
  datatype Node =
    | File(content: string, meta: Meta)
    | Dir(meta: Meta, children: seq<Child>)
    | Link
    | Special

  datatype Child = Child(name: string, node: Node)

  type Path = seq<string>

  /** A node at its path below the source directory. */
  datatype Entry = Entry(path: Path, node: Node)

  // ---- strings ------------------------------------------------------------------------------------

  lemma {:induction false} LessAfterPrefix(p: string, a: string, b: string)
    ensures Less(p + a, p + b) <==> Less(a, b)
  {
    if p == "" {
      assert p + a == a && p + b == b;
    } else {
      assert (p + a)[1..] == p[1..] + a && (p + b)[1..] == p[1..] + b;
      LessAfterPrefix(p[1..], a, b);
    }
  }

  predicate ProperPrefix(a: string, b: string) {
    |a| < |b| && a == b[..|a|]
  }

  lemma {:induction false} ProperPrefixOfRest(a: string, b: string)
    requires a != "" && b != "" && a[0] == b[0]
    ensures ProperPrefix(a, b) <==> ProperPrefix(a[1..], b[1..])
  {
    if ProperPrefix(a[1..], b[1..]) {
      assert a == [a[0]] + a[1..] && b[..|a|] == [b[0]] + b[1..][..|a| - 1];
    }
  }

  /** Unless a is a prefix of b, whatever follows does not change their order. */
  lemma {:induction false} LessBeforeSuffix(a: string, b: string, s: string, t: string)
    requires Less(a, b) && !ProperPrefix(a, b)
    ensures Less(a + s, b + t)
  {
    if a != "" && a[0] == b[0] {
      assert (a + s)[1..] == a[1..] + s && (b + t)[1..] == b[1..] + t;
      ProperPrefixOfRest(a, b);
      LessBeforeSuffix(a[1..], b[1..], s, t);
    }
  }

  // ---- paths --------------------------------------------------------------------------------------

  /** `PurePosixPath(*parts).as_posix()`. */
  function Join(path: Path): string
    requires |path| >= 1
  {
    path[0] + Tail(path[1..])
  }

  function Tail(path: Path): string {
    if path == [] then "" else "/" + path[0] + Tail(path[1..])
  }

  /** The text of a prefix, up to and including its last slash. */
  function Slashed(prefix: Path): string {
    if prefix == [] then "" else prefix[0] + "/" + Slashed(prefix[1..])
  }

  lemma {:induction false} JoinAfter(prefix: Path, p: Path)
    requires |p| >= 1
    ensures Join(prefix + p) == Slashed(prefix) + Join(p)
  {
    if prefix == [] {
      assert prefix + p == p;
    } else {
      JoinAfter(prefix[1..], p);
      var rest := prefix[1..] + p;
      assert (prefix + p)[1..] == rest;
      assert Tail(rest) == "/" + Join(rest);
      assert prefix[0] + ("/" + (Slashed(prefix[1..]) + Join(p))) == (prefix[0] + "/" + Slashed(prefix[1..])) + Join(p);
    }
  }

  /** A common directory does not matter to the order of two joined paths. */
  lemma {:induction false} LessAfterParts(prefix: Path, p: Path, q: Path)
    requires |p| >= 1 && |q| >= 1
    ensures Less(Join(prefix + p), Join(prefix + q)) <==> Less(Join(p), Join(q))
  {
    JoinAfter(prefix, p);
    JoinAfter(prefix, q);
    LessAfterPrefix(Slashed(prefix), Join(p), Join(q));
  }

  // ---- the tree walked recursively ----------------------------------------------------------------

  /** All entries below a directory that are not directories, depth first in listing order. */
  function Leaves(prefix: Path, children: seq<Child>): seq<Entry>
    decreases children
  {
    if children == [] then [] else LeavesOf(Here(prefix, children[0])) + Leaves(prefix, children[1..])
  }

  function Here(prefix: Path, child: Child): (e: Entry)
    ensures e.node == child.node
  {
    Entry(prefix + [child.name], child.node)
  }

  function LeavesOf(e: Entry): seq<Entry>
    decreases e.node
  {
    if e.node.Dir? then Leaves(e.path, e.node.children) else [e]
  }

  /** The number of nodes, for termination. */
  function Size(node: Node): nat
    decreases node
  {
    if node.Dir? then 1 + Sizes(node.children) else 1
  }

  function Sizes(children: seq<Child>): nat
    decreases children
  {
    if children == [] then 0 else Size(children[0].node) + Sizes(children[1..])
  }

  // ---- well-formed trees --------------------------------------------------------------------------

  predicate ValidName(name: string) {
    && name != "" && name != "." && name != ".."
    && forall i :: 0 <= i < |name| ==> name[i] != '/' && name[i] != '\\' && name[i] != '\0'
  }

  /** Valid names, sorted and distinct, in every directory. */
  ghost predicate WellFormed(children: seq<Child>)
    decreases children
  {
    && (forall i :: 0 <= i < |children| ==> ValidName(children[i].name))
    && (forall i, j :: 0 <= i < j < |children| ==> Less(children[i].name, children[j].name))
    && forall i :: 0 <= i < |children| && children[i].node.Dir? ==> WellFormed(children[i].node.children)
  }
}
