/** Which files a scan records, in terms of what is found along a path of the tree. */
module EnvMeaning {
  import opened Prelude
  import opened EnvTree
  import opened EnvScan

  /** Following the names of the path from this directory one arrives at the node. */
  ghost predicate Found(children: seq<Child>, path: Path, node: Node)
    decreases path
  {
    path != [] && exists k :: 0 <= k < |children| && FoundIn(children[k], path, node)
  }

  ghost predicate FoundIn(child: Child, path: Path, node: Node)
    requires path != []
    decreases path, 0
  {
    && child.name == path[0]
    && if |path| == 1 then child.node == node else child.node.Dir? && Found(child.node.children, path[1..], node)
  }

  /** The names with a slash between each two. */
  function Joined(path: Path): string
    requires path != []
  {
    if |path| == 1 then path[0] else path[0] + "/" + Joined(path[1..])
  }

  lemma {:induction false} JoinIsJoined(path: Path)
    requires path != []
    ensures Join(path) == Joined(path)
  {
    if |path| > 1 {
      JoinIsJoined(path[1..]);
      assert path[0] + ("/" + Join(path[1..])) == path[0] + "/" + Join(path[1..]);
    } else {
      assert path[1..] == [] && path[0] + "" == path[0];
    }
  }

  lemma {:induction false} LeafIsFound(prefix: Path, children: seq<Child>, e: Entry) returns (path: Path)
    requires e in Leaves(prefix, children)
    ensures e.path == prefix + path && Found(children, path, e.node) && !e.node.Dir?
    decreases children
  {
    var here := Here(prefix, children[0]);
    if e in LeavesOf(here) {
      if here.node.Dir? {
        var below := LeafIsFound(here.path, here.node.children, e);
        path := [children[0].name] + below;
        assert path[1..] == below && here.path + below == prefix + path;
      } else {
        path := [children[0].name];
      }
      assert FoundIn(children[0], path, e.node);
    } else {
      path := LeafIsFound(prefix, children[1..], e);
      var k :| 0 <= k < |children[1..]| && FoundIn(children[1..][k], path, e.node);
      assert FoundIn(children[k + 1], path, e.node);
    }
  }

  lemma {:induction false} InLaterChild(prefix: Path, children: seq<Child>, k: nat, e: Entry)
    requires k < |children| && e in LeavesOf(Here(prefix, children[k]))
    ensures e in Leaves(prefix, children)
    decreases k
  {
    if k > 0 {
      InLaterChild(prefix, children[1..], k - 1, e);
    }
  }

  lemma {:induction false} FoundIsLeaf(prefix: Path, children: seq<Child>, path: Path, node: Node)
    requires Found(children, path, node) && !node.Dir?
    ensures Entry(prefix + path, node) in Leaves(prefix, children)
    decreases path
  {
    var k :| 0 <= k < |children| && FoundIn(children[k], path, node);
    var here := Here(prefix, children[k]);
    if |path| > 1 {
      FoundIsLeaf(here.path, here.node.children, path[1..], node);
      assert here.path + path[1..] == prefix + path;
    } else {
      assert here == Entry(prefix + path, node);
    }
    InLaterChild(prefix, children, k, Entry(prefix + path, node));
  }

  /** The record of a file found at a path. */
  ghost predicate Describes(r: Record, children: seq<Child>, sha: Digest, path: Path, content: string, meta: Meta) {
    && Found(children, path, File(content, meta))
    && r.path == Joined(path) && r.sha256 == sha(content) && r.size == |content|
    && (r.executable <==> meta.mode / 64 % 2 == 1)
  }

  lemma {:induction false} LeafAtRoot(children: seq<Child>, e: Entry)
    requires e in Leaves([], children)
    ensures Found(children, e.path, e.node) && !e.node.Dir?
  {
    var path := LeafIsFound([], children, e);
    assert [] + path == path;
  }

  lemma {:induction false} FoundAtRoot(children: seq<Child>, path: Path, node: Node)
    requires Found(children, path, node) && !node.Dir?
    ensures Entry(path, node) in Leaves([], children)
  {
    FoundIsLeaf([], children, path, node);
    assert [] + path == path;
  }

  lemma {:induction false} RecordOfDescribes(children: seq<Child>, sha: Digest, e: Entry)
    requires e in Leaves([], children) && e.node.File?
    ensures |e.path| >= 1 && Describes(RecordOf(e, sha), children, sha, e.path, e.node.content, e.node.meta)
  {
    LeafAtRoot(children, e);
    JoinIsJoined(e.path);
  }

  lemma {:induction false} DescribedIsRecord(
    children: seq<Child>, sha: Digest, r: Record, path: Path, content: string, meta: Meta)
    requires Describes(r, children, sha, path, content, meta)
    ensures Entry(path, File(content, meta)) in Leaves([], children)
    ensures r == RecordOf(Entry(path, File(content, meta)), sha)
  {
    FoundAtRoot(children, path, File(content, meta));
    JoinIsJoined(path);
  }

  lemma {:induction false} RecordMember(es: seq<Entry>, sha: Digest, r: Record)
    requires Rooted(es) && AllFiles(es)
    ensures r in Records(es, sha) <==> exists i :: 0 <= i < |es| && RecordOf(es[i], sha) == r
  {
    var rs := Records(es, sha);
    if i :| 0 <= i < |es| && RecordOf(es[i], sha) == r {
      assert rs[i] == r;
    }
  }

  ghost predicate IsDescribed(r: Record, children: seq<Child>, sha: Digest) {
    exists path, content, meta :: Describes(r, children, sha, path, content, meta)
  }

  /** The records of a scannable tree are exactly its files, by path, digest, size and execute bit. */
  lemma {:induction false} RecordsAreTheFiles(children: seq<Child>, sha: Digest, r: Record)
    requires Walk(children, sha).Ok?
    ensures r in Walk(children, sha).value.files <==> IsDescribed(r, children, sha)
  {
    var es := Leaves([], children);
    ScanSucceedsIff(children, sha);
    RecordMember(es, sha, r);
    if i :| 0 <= i < |es| && RecordOf(es[i], sha) == r {
      RecordOfDescribes(children, sha, es[i]);
    }
    if path, content, meta :| Describes(r, children, sha, path, content, meta) {
      DescribedIsRecord(children, sha, r, path, content, meta);
      var i :| 0 <= i < |es| && es[i] == Entry(path, File(content, meta));
    }
  }

  /** Everything in a tree that can be scanned is a file or a directory. */
  lemma {:induction false} NothingElseIsScanned(children: seq<Child>, sha: Digest, path: Path, node: Node)
    requires Walk(children, sha).Ok? && Found(children, path, node)
    ensures node.Dir? || node.File?
  {
    ScanSucceedsIff(children, sha);
    if !node.Dir? {
      FoundAtRoot(children, path, node);
    }
  }
}
