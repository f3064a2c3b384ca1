/**
 * Sealing a scanned tree. The scan lists files by path components; the lock's validator wants the
 * joined paths sorted. This module says exactly when the two agree.
 */
module EnvSeal {
  import opened Prelude
  import opened EnvTree
  import opened EnvOrder
  import opened EnvScan

  // ---- the lock -----------------------------------------------------------------------------------

  datatype Lock = Lock(id: string, fileCount: nat, total: nat, files: seq<Record>)

  datatype SealError = ScanFailed(error: Error) | InvalidLock

  function Bytes(files: seq<Record>): nat {
    if files == [] then 0 else files[0].size + Bytes(files[1..])
  }

  /** `paths == sorted(paths)` and no path twice. */
  ghost predicate SortedPaths(files: seq<Record>) {
    && (forall i, j :: 0 <= i < j < |files| ==> !Less(files[j].path, files[i].path))
    && forall i, j :: 0 <= i < j < |files| ==> files[i].path != files[j].path
  }

  /** `file_summary_must_match`, the digest aside: it is recomputed from the same files. */
  ghost predicate ValidLock(lock: Lock) {
    && 1 <= |lock.files| <= MAX_FILES && lock.total <= MAX_BYTES
    && SortedPaths(lock.files) && lock.fileCount == |lock.files| && lock.total == Bytes(lock.files)
  }

  /** One environment of `seal_benchmark_environment_suite`. */
  ghost function Seal(id: string, children: seq<Child>, sha: Digest): Result<Lock, SealError> {
    var scanned := Walk(children, sha);
    if scanned.Err? then Err(ScanFailed(scanned.error))
    else
      var lock := Lock(id, |scanned.value.files|, scanned.value.total, scanned.value.files);
      if ValidLock(lock) then Ok(lock) else Err(InvalidLock)
  }

  // ---- the condition ------------------------------------------------------------------------------

  /** Some entry below is not a directory. */
  predicate HoldsLeaf(node: Node)
    decreases node
  {
    node.Dir? ==> exists i :: 0 <= i < |node.children| && HoldsLeaf(node.children[i].node)
  }

  /** A populated directory beside a populated name that extends its own with a character below the slash. */
  predicate Clash(a: Child, b: Child) {
    a.node.Dir? && HoldsLeaf(a.node) && HoldsLeaf(b.node) && ProperPrefix(a.name, b.name) && b.name[|a.name|] < '/'
  }

  predicate Tidy(children: seq<Child>)
    decreases children
  {
    children == [] || (
      && (forall j :: 0 < j < |children| ==> !Clash(children[0], children[j]))
      && (children[0].node.Dir? ==> Tidy(children[0].node.children))
      && Tidy(children[1..]))
  }

  // ---- the order of the walk ----------------------------------------------------------------------

  predicate Before(x: Entry, y: Entry) {
    x.path != [] && y.path != [] && Less(Join(x.path), Join(y.path))
  }

  ghost predicate Ascending(es: seq<Entry>) {
    forall i, j :: 0 <= i < j < |es| ==> Before(es[i], es[j])
  }

  ghost predicate AllBefore(xs: seq<Entry>, ys: seq<Entry>) {
    forall i, j :: 0 <= i < |xs| && 0 <= j < |ys| ==> Before(xs[i], ys[j])
  }

  lemma {:induction false} AscendingAppend(xs: seq<Entry>, ys: seq<Entry>)
    ensures Ascending(xs + ys) <==> Ascending(xs) && Ascending(ys) && AllBefore(xs, ys)
  {
    var all := xs + ys;
    assert forall i :: 0 <= i < |xs| ==> all[i] == xs[i];
    assert forall i :: 0 <= i < |ys| ==> all[|xs| + i] == ys[i];
    if Ascending(all) {
      forall i, j | 0 <= i < j < |ys| ensures Before(ys[i], ys[j]) {
        assert Before(all[|xs| + i], all[|xs| + j]);
      }
      forall i, j | 0 <= i < |xs| && 0 <= j < |ys| ensures Before(xs[i], ys[j]) {
        assert Before(all[i], all[|xs| + j]);
      }
    }
  }

  lemma {:induction false} LeavesOfChild(prefix: Path, children: seq<Child>, j: nat, e: Entry)
    requires j < |children| && e in LeavesOf(Here(prefix, children[j]))
    ensures e in Leaves(prefix, children)
    decreases children
  {
    if j > 0 {
      LeavesOfChild(prefix, children[1..], j - 1, e);
    }
  }

  lemma {:induction false} LeavesExist(prefix: Path, children: seq<Child>)
    ensures Leaves(prefix, children) != [] <==> exists i :: 0 <= i < |children| && HoldsLeaf(children[i].node)
    decreases children
  {
    if children != [] {
      LeafExists(prefix, children[0]);
      LeavesExist(prefix, children[1..]);
      if i :| 0 <= i < |children| && HoldsLeaf(children[i].node) {
        assert i > 0 ==> HoldsLeaf(children[1..][i - 1].node);
      }
    }
  }

  lemma {:induction false} LeafExists(prefix: Path, child: Child)
    ensures LeavesOf(Here(prefix, child)) != [] <==> HoldsLeaf(child.node)
    decreases child
  {
    if child.node.Dir? {
      LeavesExist(prefix + [child.name], child.node.children);
    }
  }

  /** The first child's leaves come before all later ones exactly when it clashes with no later child. */
  lemma {:induction false} FirstChildBefore(prefix: Path, children: seq<Child>)
    requires WellFormed(children) && children != []
    ensures AllBefore(LeavesOf(Here(prefix, children[0])), Leaves(prefix, children[1..])) <==>
              forall j :: 0 < j < |children| ==> !Clash(children[0], children[j])
  {
    var first, rest := LeavesOf(Here(prefix, children[0])), children[1..];
    var later := Leaves(prefix, rest);
    if AllBefore(first, later) {
      forall j | 0 < j < |children| ensures !Clash(children[0], children[j]) {
        if Clash(children[0], children[j]) {
          ClashReverses(prefix, children, j);
        }
      }
    }
    if forall j :: 0 < j < |children| ==> !Clash(children[0], children[j]) {
      forall i, k | 0 <= i < |first| && 0 <= k < |later| ensures Before(first[i], later[k]) {
        var x := LeafPath(prefix, children[0], first[i]);
        var j, y := LeafOfOneChild(prefix, rest, later[k]);
        LeafExists(prefix, children[0]);
        LeafExists(prefix, rest[j]);
        assert !Clash(children[0], children[j + 1]);
        SiblingOrder(prefix, children[0].name, rest[j].name, x, y);
      }
    }
  }

  lemma {:induction false} ClashReverses(prefix: Path, children: seq<Child>, j: nat)
    requires WellFormed(children) && 0 < j < |children| && Clash(children[0], children[j])
    ensures !AllBefore(LeavesOf(Here(prefix, children[0])), Leaves(prefix, children[1..]))
  {
    LeafExists(prefix, children[0]);
    LeafExists(prefix, children[j]);
    var first, later := LeavesOf(Here(prefix, children[0])), Leaves(prefix, children[1..]);
    var e := LeavesOf(Here(prefix, children[j]))[0];
    LeavesOfChild(prefix, children[1..], j - 1, e);
    var k :| 0 <= k < |later| && later[k] == e;
    var x := LeafPath(prefix, children[0], first[0]);
    var y := LeafPath(prefix, children[j], e);
    SiblingOrder(prefix, children[0].name, children[j].name, x, y);
    assert !Before(first[0], later[k]);
  }

  /** The walk is in string order exactly on tidy trees. */
  lemma {:induction false} AscendingIffTidy(prefix: Path, children: seq<Child>)
    requires WellFormed(children)
    ensures Ascending(Leaves(prefix, children)) <==> Tidy(children)
    decreases children
  {
    if children != [] {
      WellFormedRest(children);
      AscendingIffTidy(prefix, children[1..]);
      if children[0].node.Dir? {
        AscendingIffTidy(prefix + [children[0].name], children[0].node.children);
      }
      FirstChildBefore(prefix, children);
      AscendingAppend(LeavesOf(Here(prefix, children[0])), Leaves(prefix, children[1..]));
    }
  }

  // ---- sealing ------------------------------------------------------------------------------------

  lemma {:induction false} StrictlyLess(a: string, b: string)
    ensures Less(a, b) <==> !Less(b, a) && a != b
  {
    LessTotal(a, b);
    LessIrreflexive(a);
    if Less(a, b) && Less(b, a) {
      LessTransitive(a, b, a);
    }
  }

  lemma {:induction false} SortedIffAscending(es: seq<Entry>, sha: Digest)
    requires Rooted(es) && AllFiles(es)
    ensures SortedPaths(Records(es, sha)) <==> Ascending(es)
  {
    var rs := Records(es, sha);
    forall i, j | 0 <= i < j < |es|
      ensures Before(es[i], es[j]) <==> !Less(rs[j].path, rs[i].path) && rs[i].path != rs[j].path
    {
      StrictlyLess(rs[i].path, rs[j].path);
    }
    if SortedPaths(rs) {
      forall i, j | 0 <= i < j < |es| ensures Before(es[i], es[j]) {
        assert !Less(rs[j].path, rs[i].path);
      }
    }
    if Ascending(es) {
      forall i, j | 0 <= i < j < |rs| ensures !Less(rs[j].path, rs[i].path) && rs[i].path != rs[j].path {
        assert Before(es[i], es[j]);
      }
    }
  }

  lemma {:induction false} BytesAreTotal(es: seq<Entry>, sha: Digest)
    requires Rooted(es) && AllFiles(es)
    ensures Bytes(Records(es, sha)) == Total(es)
  {
    if es != [] {
      BytesAreTotal(es[1..], sha);
    }
  }

  /** A tree can be sealed if and only if it can be scanned and is tidy. */
  lemma {:induction false} SealSucceedsIff(id: string, children: seq<Child>, sha: Digest)
    requires WellFormed(children)
    ensures Seal(id, children, sha).Ok? <==> Scannable(Leaves([], children)) && Tidy(children)
  {
    var es := Leaves([], children);
    ScanSucceedsIff(children, sha);
    AscendingIffTidy([], children);
    if Scannable(es) {
      SortedIffAscending(es, sha);
      BytesAreTotal(es, sha);
    }
  }

  /** A directory `a` with a file `x` beside a file `a.txt`. */
  function OrdinaryTree(): seq<Child> {
    [Child("a", Dir(Meta(0, 0), [Child("x", File("", Meta(0, 0)))])), Child("a.txt", File("", Meta(0, 0)))]
  }

  lemma {:induction false} OrdinaryLeaves()
    ensures Leaves([], OrdinaryTree()) ==
              [Entry(["a", "x"], File("", Meta(0, 0))), Entry(["a.txt"], File("", Meta(0, 0)))]
  {
    var tree, file := OrdinaryTree(), File("", Meta(0, 0));
    var inner := [Child("x", file)];
    assert inner[1..] == [] && tree[1..] == [Child("a.txt", file)] && tree[1..][1..] == [];
    assert [] + ["a"] == ["a"] && ["a"] + ["x"] == ["a", "x"] && [] + ["a.txt"] == ["a.txt"];
    assert Leaves(["a"], inner) == [Entry(["a", "x"], file)];
    assert Leaves([], tree[1..]) == [Entry(["a.txt"], file)];
  }

  lemma {:induction false} OrdinaryTreeClashes()
    ensures WellFormed(OrdinaryTree()) && !Tidy(OrdinaryTree())
  {
    var tree := OrdinaryTree();
    assert WellFormed(tree[0].node.children) && Less("a", "a.txt");
    assert HoldsLeaf(tree[0].node.children[0].node) && "a.txt"[..1] == "a" && Clash(tree[0], tree[1]);
  }

  /** It can be scanned but not sealed. */
  lemma {:induction false} OrdinaryTreeCannotBeSealed(id: string, sha: Digest)
    ensures WellFormed(OrdinaryTree()) && Walk(OrdinaryTree(), sha).Ok?
    ensures Seal(id, OrdinaryTree(), sha) == Err(InvalidLock)
  {
    var es := Leaves([], OrdinaryTree());
    OrdinaryLeaves();
    OrdinaryTreeClashes();
    assert es[1..] == [es[1]] && es[1..][1..] == [];
    ScanSucceedsIff(OrdinaryTree(), sha);
    SealSucceedsIff(id, OrdinaryTree(), sha);
  }
}
