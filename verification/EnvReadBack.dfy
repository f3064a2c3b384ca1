/**
 * The closing scan of a copy in benchmark_env.py: the destination is listed and read back, and what
 * is found there is scanned and compared with what was expected.
 */
module EnvReadBack {
  import opened Prelude
  import opened EnvTree
  import opened EnvSeal
  import opened EnvScan
  import opened EnvMaterialized
  import opened EnvCopy

  // ---- what is below a directory ------------------------------------------------------------------

  /** Below this directory there are exactly these children, with all that is below them. */
  ghost predicate MirrorsBelow(entries: map<Path, Made>, prefix: Path, children: seq<Child>) {
    var all := Everything(prefix, children);
    && Regular(all)
    && (forall e :: e in all ==> e.path in entries && entries[e.path] == Finished(e.node))
    && forall path :: path in entries && prefix < path ==> Visited(all, path)
  }

  ghost predicate Visited(all: seq<Entry>, path: Path) {
    exists e :: e in all && e.path == path
  }

  lemma {:induction false} MirroredRoot(entries: map<Path, Made>, meta: Meta, children: seq<Child>)
    requires Mirrors(entries, meta, children)
    ensures MirrorsBelow(entries, [], children) && entries[[]] == MadeDir(Some(meta))
  {
    var all := Everything([], children);
    forall e | e in all ensures e.path in entries && entries[e.path] == Finished(e.node) {
      var i :| 0 <= i < |all| && all[i] == e;
    }
    forall path | path in entries && [] < path ensures Visited(all, path) {
      var i :| 0 <= i < |all| && all[i].path == path;
      assert all[i] in all;
    }
  }

  lemma {:induction false} InChildIsInAll(prefix: Path, children: seq<Child>, k: nat, e: Entry)
    requires k < |children| && e in EverythingAt(Here(prefix, children[k]))
    ensures e in Everything(prefix, children)
    decreases k
  {
    if k > 0 {
      InChildIsInAll(prefix, children[1..], k - 1, e);
    }
  }

  lemma {:induction false} InAllIsInAChild(prefix: Path, children: seq<Child>, e: Entry) returns (k: nat)
    requires e in Everything(prefix, children)
    ensures k < |children| && e in EverythingAt(Here(prefix, children[k]))
    decreases children
  {
    if e in EverythingAt(Here(prefix, children[0])) {
      k := 0;
    } else {
      var j := InAllIsInAChild(prefix, children[1..], e);
      k := j + 1;
    }
  }

  /** The child's own entry, and for a directory all that is below it. */
  lemma {:induction false} ChildMirrored(entries: map<Path, Made>, prefix: Path, children: seq<Child>, k: nat)
    requires MirrorsBelow(entries, prefix, children) && WellFormed(children) && k < |children|
    ensures var here := Here(prefix, children[k]);
            && here.path in entries && (here.node.Dir? || here.node.File?) && entries[here.path] == Finished(here.node)
            && (here.node.Dir? ==> MirrorsBelow(entries, here.path, here.node.children))
  {
    var here, all := Here(prefix, children[k]), Everything(prefix, children);
    assert EverythingAt(here)[0] == here;
    InChildIsInAll(prefix, children, k, here);
    var i :| 0 <= i < |all| && all[i] == here;
    if here.node.Dir? {
      BelowChild(entries, prefix, children, k);
    }
  }

  lemma {:induction false} BelowChild(entries: map<Path, Made>, prefix: Path, children: seq<Child>, k: nat)
    requires MirrorsBelow(entries, prefix, children) && WellFormed(children)
    requires k < |children| && children[k].node.Dir?
    ensures MirrorsBelow(entries, prefix + [children[k].name], children[k].node.children)
  {
    var here, all := Here(prefix, children[k]), Everything(prefix, children);
    var below := Everything(here.path, here.node.children);
    forall e | e in below ensures e in all {
      assert EverythingAt(here) == [here] + below;
      InChildIsInAll(prefix, children, k, e);
    }
    assert Regular(below) by {
      forall i | 0 <= i < |below| ensures below[i].node.Dir? || below[i].node.File? {
        assert below[i] in all;
      }
    }
    forall path | path in entries && here.path < path ensures Visited(below, path) {
      VisitedBelow(prefix, children, k, path);
    }
  }

  lemma {:induction false} VisitedBelow(prefix: Path, children: seq<Child>, k: nat, path: Path)
    requires WellFormed(children) && k < |children| && children[k].node.Dir?
    requires Visited(Everything(prefix, children), path) && prefix + [children[k].name] < path
    ensures Visited(Everything(prefix + [children[k].name], children[k].node.children), path)
  {
    var here := Here(prefix, children[k]);
    var e :| e in Everything(prefix, children) && e.path == path;
    var j := InAllIsInAChild(prefix, children, e);
    var rest := EverythingUnder(Here(prefix, children[j]), e);
    assert path[|prefix|] == children[j].name && path[|prefix|] == children[k].name;
    SameNameSameChild(children, j, k);
    assert EverythingAt(here) == [here] + Everything(here.path, here.node.children);
  }

  lemma {:induction false} SameNameSameChild(children: seq<Child>, j: nat, k: nat)
    requires WellFormed(children) && j < |children| && k < |children| && children[j].name == children[k].name
    ensures j == k
  {
    LessIrreflexive(children[j].name);
  }

  // ---- listing a directory --------------------------------------------------------------------------

  /** `os.listdir`: the names right below a directory. */
  function NamesIn(entries: map<Path, Made>, prefix: Path): set<string> {
    set path | path in entries && |path| == |prefix| + 1 && prefix <= path :: path[|prefix|]
  }

  predicate Ascending(names: seq<string>) {
    forall i, j :: 0 <= i < j < |names| ==> Less(names[i], names[j])
  }

  function NamesOf(children: seq<Child>): (names: seq<string>)
    ensures |names| == |children| && forall i :: 0 <= i < |names| ==> names[i] == children[i].name
  {
    seq(|children|, i requires 0 <= i < |children| => children[i].name)
  }

  lemma {:induction false} NamesAreTheChildren(entries: map<Path, Made>, prefix: Path, children: seq<Child>)
    requires MirrorsBelow(entries, prefix, children) && WellFormed(children)
    ensures forall name :: name in NamesIn(entries, prefix) <==> name in NamesOf(children)
  {
    forall name | name in NamesIn(entries, prefix) ensures name in NamesOf(children) {
      var path :| path in entries && |path| == |prefix| + 1 && prefix <= path && path[|prefix|] == name;
      var e :| e in Everything(prefix, children) && e.path == path;
      var j, rest := EverythingUnderAChild(prefix, children, e);
      assert NamesOf(children)[j] == name;
    }
    forall k | 0 <= k < |children| ensures children[k].name in NamesIn(entries, prefix) {
      ChildMirrored(entries, prefix, children, k);
      var path := prefix + [children[k].name];
      assert path in entries && |path| == |prefix| + 1 && prefix <= path && path[|prefix|] == children[k].name;
    }
  }

  lemma {:induction false} FirstIsLeast(a: seq<string>, b: seq<string>)
    requires Ascending(a) && Ascending(b) && a != [] && b != []
    requires a[0] in b && b[0] in a
    ensures a[0] == b[0]
  {
    StrictlyLess(a[0], b[0]);
  }

  lemma {:induction false} NoMembers(names: seq<string>)
    ensures names == [] <==> forall name :: name !in names
  {
    if names != [] {
      assert names[0] in names;
    }
  }

  lemma {:induction false} AscendingIsUnique(a: seq<string>, b: seq<string>)
    requires Ascending(a) && Ascending(b) && forall name :: name in a <==> name in b
    ensures a == b
  {
    if a == [] || b == [] {
      NoMembers(a);
      NoMembers(b);
    } else {
      assert a[0] in b && b[0] in a;
      FirstIsLeast(a, b);
      forall name ensures name in a[1..] <==> name in b[1..] {
        RestOfAscending(a, name);
        RestOfAscending(b, name);
      }
      AscendingIsUnique(a[1..], b[1..]);
      assert a == [a[0]] + a[1..] && b == [b[0]] + b[1..];
    }
  }

  lemma {:induction false} RestOfAscending(a: seq<string>, name: string)
    requires Ascending(a) && a != []
    ensures name in a[1..] <==> name in a && name != a[0]
  {
    LessIrreflexive(a[0]);
    assert a == [a[0]] + a[1..];
  }

  /** `sorted(os.listdir(...))`. */
  method SortNames(names: set<string>) returns (sorted: seq<string>)
    ensures Ascending(sorted) && forall name :: name in sorted <==> name in names
  {
    sorted := [];
    var rest := names;
    while rest != {}
      invariant Ascending(sorted)
      invariant forall name :: name in names <==> name in rest || name in sorted
      invariant forall name :: name in rest ==> name !in sorted
      decreases |rest|
    {
      var name :| name in rest;
      rest := rest - {name};
      sorted := InsertName(name, sorted);
    }
  }

  method InsertName(name: string, names: seq<string>) returns (longer: seq<string>)
    requires Ascending(names) && name !in names
    ensures Ascending(longer) && forall other :: other in longer <==> other == name || other in names
  {
    var k := 0;
    while k < |names| && Less(names[k], name)
      invariant k <= |names| && forall i :: 0 <= i < k ==> Less(names[i], name)
    {
      k := k + 1;
    }
    longer := names[..k] + [name] + names[k..];
    if k < |names| {
      LessTotal(names[k], name);
      forall j | k < j < |names| ensures Less(name, names[j]) {
        LessTransitive(name, names[k], names[j]);
      }
    }
    assert names == names[..k] + names[k..];
  }

  // ---- reading a directory back -----------------------------------------------------------------------

  /** The tree below a directory of the destination; `children` is what was copied there. */
  method ReadBelow(entries: map<Path, Made>, prefix: Path, ghost children: seq<Child>) returns (found: seq<Child>)
    requires MirrorsBelow(entries, prefix, children) && WellFormed(children)
    ensures found == children
    decreases children
  {
    NamesAreTheChildren(entries, prefix, children);
    var names := SortNames(NamesIn(entries, prefix));
    AscendingIsUnique(names, NamesOf(children));
    found := [];
    for k := 0 to |names|
      invariant found == children[..k]
    {
      var path := prefix + [names[k]];
      ChildMirrored(entries, prefix, children, k);
      var node;
      match entries[path] {
        case MadeFile(content, meta) =>
          node := File(content, meta);
        case MadeDir(preserved) =>
          var below := ReadBelow(entries, path, children[k].node.children);
          node := Dir(preserved.value, below);
      }
      found := found + [Child(names[k], node)];
    }
  }

  // ---- the whole copy ---------------------------------------------------------------------------------

  /**
   * `_copy_environment_tree_descriptor`: it succeeds exactly on scannable trees whose sorted files
   * are the expected ones, and then the destination is the source.
   */
  method CopyTree(dest: Destination, meta: Meta, children: seq<Child>, sha: Digest, expected: Option<seq<Record>>)
    returns (outcome: Result<Scanned, CopyError>)
    requires WellFormed(children) && dest.entries == map[[] := MadeDir(None)] && dest.ops == []
    modifies dest
    ensures outcome.Ok? ==> Scannable(Leaves([], children)) && IsSortedScan(children, sha, outcome.value)
    ensures outcome.Ok? ==> expected.None? || expected.value == outcome.value.files
    ensures outcome.Ok? ==> Mirrors(dest.entries, meta, children) && dest.ops == CopyLog(meta, children)
    ensures outcome.Err? && outcome.error != Mismatch ==> !Scannable(Leaves([], children))
    ensures outcome == Err(Mismatch) ==>
              expected.Some? &&
              exists scanned :: IsSortedScan(children, sha, scanned) && expected.value != scanned.files
  {
    var error := CopyContents(dest, meta, children);
    if error.Some? {
      return Err(Refused(error.value));
    }
    MirroredRoot(dest.entries, meta, children);
    var found := ReadBelow(dest.entries, [], children);
    var scan := ScanMaterialized(dest.entries[[]].preserved.value, found, sha);
    // The copy has already met every limit, so scanning what it made cannot fail.
    assert scan.Ok?;
    if expected.Some? && expected.value != scan.value.files {
      return Err(Mismatch);
    }
    outcome := Ok(scan.value);
  }
}
