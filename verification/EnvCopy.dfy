/**
 * Copying a quiet source tree into a fresh destination directory, as benchmark_env.py does it
 * through descriptors: everything is created first, directory metadata is set at the end.
 */
module EnvCopy {
  import opened Prelude
  import opened EnvTree
  import opened EnvOrder
  import opened EnvScan
  import opened EnvMaterialized

  datatype Made = MadeDir(preserved: Option<Meta>) | MadeFile(content: string, meta: Meta)

  datatype Op = MakeDir(path: Path) | WriteFile(path: Path) | SetMeta(path: Path)

  datatype CopyError = Refused(error: Error) | Mismatch

  // ---- everything in the tree, in the order it is visited -----------------------------------------

  function Everything(prefix: Path, children: seq<Child>): seq<Entry>
    decreases children
  {
    if children == [] then [] else EverythingAt(Here(prefix, children[0])) + Everything(prefix, children[1..])
  }

  function EverythingAt(e: Entry): seq<Entry>
    decreases e.node
  {
    [e] + if e.node.Dir? then Everything(e.path, e.node.children) else []
  }

  lemma {:induction false} EverythingUnderAChild(
    prefix: Path, children: seq<Child>, e: Entry) returns (j: nat, rest: Path)
    requires e in Everything(prefix, children)
    ensures j < |children| && e.path == prefix + ([children[j].name] + rest)
    decreases children
  {
    var here := Here(prefix, children[0]);
    if e in EverythingAt(here) {
      j := 0;
      rest := EverythingUnder(here, e);
      assert e.path == prefix + [children[0].name] + rest == prefix + ([children[0].name] + rest);
    } else {
      j, rest := EverythingUnderAChild(prefix, children[1..], e);
      j := j + 1;
    }
  }

  lemma {:induction false} EverythingUnder(here: Entry, e: Entry) returns (rest: Path)
    requires e in EverythingAt(here)
    ensures e.path == here.path + rest && (e == here || |rest| > 0)
    decreases here.node
  {
    if e == here {
      rest := [];
    } else {
      var j, deeper := EverythingUnderAChild(here.path, here.node.children, e);
      rest := [here.node.children[j].name] + deeper;
    }
  }

  /** A later entry's path never leads to or through an earlier entry. */
  ghost predicate NeverBack(es: seq<Entry>) {
    forall a, b :: 0 <= a < b < |es| ==> !(es[b].path <= es[a].path)
  }

  lemma {:induction false} NeverBackAppend(xs: seq<Entry>, ys: seq<Entry>)
    requires NeverBack(xs) && NeverBack(ys)
    requires forall a, b :: 0 <= a < |xs| && 0 <= b < |ys| ==> !(ys[b].path <= xs[a].path)
    ensures NeverBack(xs + ys)
  {
  }

  lemma {:induction false} SiblingsDoNotLead(prefix: Path, children: seq<Child>, x: Entry, y: Entry)
    requires WellFormed(children) && children != []
    requires x in EverythingAt(Here(prefix, children[0])) && y in Everything(prefix, children[1..])
    ensures !(y.path <= x.path)
  {
    var here := Here(prefix, children[0]);
    var rx := EverythingUnder(here, x);
    var j, ry := EverythingUnderAChild(prefix, children[1..], y);
    assert Less(children[0].name, children[j + 1].name);
    LessIrreflexive(children[0].name);
    assert y.path[|prefix|] == children[j + 1].name && x.path[|prefix|] == children[0].name;
  }

  lemma {:induction false} VisitsNeverGoBack(prefix: Path, children: seq<Child>)
    requires WellFormed(children)
    ensures NeverBack(Everything(prefix, children))
    decreases children
  {
    if children != [] {
      var here, rest := Here(prefix, children[0]), children[1..];
      WellFormedRest(children);
      VisitsNeverGoBack(prefix, rest);
      VisitsBelow(here);
      var first, later := EverythingAt(here), Everything(prefix, rest);
      forall a, b | 0 <= a < |first| && 0 <= b < |later| ensures !(later[b].path <= first[a].path) {
        SiblingsDoNotLead(prefix, children, first[a], later[b]);
      }
      NeverBackAppend(first, later);
    }
  }

  lemma {:induction false} VisitsBelow(here: Entry)
    requires here.node.Dir? ==> WellFormed(here.node.children)
    ensures NeverBack(EverythingAt(here))
    decreases here.node
  {
    if here.node.Dir? {
      var below := Everything(here.path, here.node.children);
      VisitsNeverGoBack(here.path, here.node.children);
      forall b | 0 <= b < |below| ensures !(below[b].path <= here.path) {
        var j, rest := EverythingUnderAChild(here.path, here.node.children, below[b]);
      }
      NeverBackAppend([here], below);
    }
  }

  /** Every directory on the way to the n-th entry has been visited before it. */
  ghost predicate ParentsFirst(prefix: Path, es: seq<Entry>) {
    forall n, k :: 0 <= n < |es| && |prefix| < k < |es[n].path| ==> VisitedDir(es, n, es[n].path[..k])
  }

  ghost predicate VisitedDir(es: seq<Entry>, n: nat, path: Path)
    requires n <= |es|
  {
    exists m :: 0 <= m < n && es[m].node.Dir? && es[m].path == path
  }

  lemma {:induction false} ParentsFirstAppend(prefix: Path, xs: seq<Entry>, ys: seq<Entry>)
    requires ParentsFirst(prefix, xs) && ParentsFirst(prefix, ys)
    ensures ParentsFirst(prefix, xs + ys)
  {
    var all := xs + ys;
    forall n, k | 0 <= n < |all| && |prefix| < k < |all[n].path| ensures VisitedDir(all, n, all[n].path[..k]) {
      if n < |xs| {
        assert VisitedDir(xs, n, xs[n].path[..k]);
        var m :| 0 <= m < n && xs[m].node.Dir? && xs[m].path == xs[n].path[..k];
        assert all[m] == xs[m];
      } else {
        assert VisitedDir(ys, n - |xs|, ys[n - |xs|].path[..k]);
        var m :| 0 <= m < n - |xs| && ys[m].node.Dir? && ys[m].path == ys[n - |xs|].path[..k];
        assert all[|xs| + m] == ys[m];
      }
    }
  }

  lemma {:induction false} ParentsAreFirst(prefix: Path, children: seq<Child>)
    ensures ParentsFirst(prefix, Everything(prefix, children))
    decreases children
  {
    if children != [] {
      ParentsFirstBelow(prefix, Here(prefix, children[0]));
      ParentsAreFirst(prefix, children[1..]);
      ParentsFirstAppend(prefix, EverythingAt(Here(prefix, children[0])), Everything(prefix, children[1..]));
    }
  }

  lemma {:induction false} ParentsFirstBelow(prefix: Path, here: Entry)
    requires |here.path| == |prefix| + 1
    ensures ParentsFirst(prefix, EverythingAt(here))
    decreases here.node
  {
    if here.node.Dir? {
      var below := Everything(here.path, here.node.children);
      var all := [here] + below;
      ParentsAreFirst(here.path, here.node.children);
      forall n, k | 0 <= n < |all| && |prefix| < k < |all[n].path| ensures VisitedDir(all, n, all[n].path[..k]) {
        var j, rest := EverythingUnderAChild(here.path, here.node.children, below[n - 1]);
        if k == |here.path| {
          assert all[0].path == all[n].path[..k];
        } else {
          assert VisitedDir(below, n - 1, below[n - 1].path[..k]);
          var m :| 0 <= m < n - 1 && below[m].node.Dir? && below[m].path == below[n - 1].path[..k];
          assert all[m + 1] == below[m];
        }
      }
    }
  }

  // ---- what is visited and what is scanned ----------------------------------------------------------

  datatype Load = Load(files: nat, bytes: nat, regular: bool)

  function LoadOf(es: seq<Entry>): Load {
    if es == [] then Load(0, 0, true)
    else
      var rest, node := LoadOf(es[1..]), es[0].node;
      if node.Dir? then rest
      else if node.File? then Load(rest.files + 1, rest.bytes + |node.content|, rest.regular)
      else Load(rest.files + 1, rest.bytes, false)
  }

  predicate Loadable(load: Load) {
    load.regular && 1 <= load.files <= MAX_FILES && load.bytes <= MAX_BYTES
  }

  lemma {:induction false} LoadAppend(xs: seq<Entry>, ys: seq<Entry>)
    ensures LoadOf(xs + ys) == Load(LoadOf(xs).files + LoadOf(ys).files, LoadOf(xs).bytes + LoadOf(ys).bytes,
                                    LoadOf(xs).regular && LoadOf(ys).regular)
  {
    if xs == [] {
      assert xs + ys == ys;
    } else {
      assert (xs + ys)[1..] == xs[1..] + ys;
      LoadAppend(xs[1..], ys);
    }
  }

  lemma {:induction false} SameLoad(prefix: Path, children: seq<Child>)
    ensures LoadOf(Everything(prefix, children)) == LoadOf(Leaves(prefix, children))
    decreases children
  {
    if children != [] {
      var here := Here(prefix, children[0]);
      SameLoad(prefix, children[1..]);
      if here.node.Dir? {
        SameLoad(here.path, here.node.children);
      }
      LoadAppend([here], if here.node.Dir? then Everything(here.path, here.node.children) else []);
      assert [here][1..] == [];
      LoadAppend(EverythingAt(here), Everything(prefix, children[1..]));
      LoadAppend(LeavesOf(here), Leaves(prefix, children[1..]));
    }
  }

  lemma {:induction false} LoadOfLeaves(es: seq<Entry>)
    requires forall i :: 0 <= i < |es| ==> !es[i].node.Dir?
    ensures LoadOf(es).files == |es| && LoadOf(es).bytes == Total(es) && (LoadOf(es).regular <==> AllFiles(es))
  {
    if es != [] {
      LoadOfLeaves(es[1..]);
      assert AllFiles(es) <==> es[0].node.File? && AllFiles(es[1..]) by {
        assert es == [es[0]] + es[1..];
      }
    }
  }

  lemma {:induction false} LeavesAreNoDirectories(prefix: Path, children: seq<Child>)
    ensures forall i :: 0 <= i < |Leaves(prefix, children)| ==> !Leaves(prefix, children)[i].node.Dir?
    decreases children
  {
    if children != [] {
      var first := LeavesOf(Here(prefix, children[0]));
      LeavesAreNoDirectories(prefix, children[1..]);
      if children[0].node.Dir? {
        LeavesAreNoDirectories(prefix + [children[0].name], children[0].node.children);
        assert first == Leaves(prefix + [children[0].name], children[0].node.children);
      } else {
        assert first == [Here(prefix, children[0])];
      }
      assert forall i :: 0 <= i < |first| ==> !first[i].node.Dir?;
    }
  }

  /** The tree can be scanned exactly when everything in it fits the limits of the copy. */
  lemma {:induction false} LoadableIffScannable(children: seq<Child>)
    ensures Loadable(LoadOf(Everything([], children))) <==> Scannable(Leaves([], children))
  {
    SameLoad([], children);
    LeavesAreNoDirectories([], children);
    LoadOfLeaves(Leaves([], children));
  }

  // ---- the destination ------------------------------------------------------------------------------

  /** What creating an entry makes; directory metadata comes later. */
  function Raw(node: Node): Made
    requires node.Dir? || node.File?
  {
    if node.Dir? then MadeDir(None) else MadeFile(node.content, node.meta)
  }

  function Finished(node: Node): Made
    requires node.Dir? || node.File?
  {
    if node.Dir? then MadeDir(Some(node.meta)) else MadeFile(node.content, node.meta)
  }

  ghost predicate IsDirectory(entries: map<Path, Made>, path: Path) {
    path in entries && entries[path].MadeDir?
  }

  /** Every prefix of the path up to this length is a directory. */
  ghost predicate Reachable(entries: map<Path, Made>, path: Path, n: nat) {
    n <= |path| && forall k :: 0 <= k <= n ==> IsDirectory(entries, path[..k])
  }

  /** The root descriptor's tree, and the changes made to it in order. */
  class Destination {
    var entries: map<Path, Made>
    var ops: seq<Op>

    /** After `os.mkdir` of the destination itself. */
    constructor ()
      ensures entries == map[[] := MadeDir(None)] && ops == []
    {
      entries, ops := map[[] := MadeDir(None)], [];
    }

    /** `_open_materialized_directory`. */
    method Open(parts: Path, create: bool) returns (found: bool)
      modifies this
      ensures !create ==> entries == old(entries) && ops == old(ops)
      ensures Reachable(old(entries), parts, |parts|) ==> found && entries == old(entries) && ops == old(ops)
      ensures create && Creatable(old(entries), parts) ==>
                found && entries == old(entries)[parts := MadeDir(None)] && ops == old(ops) + [MakeDir(parts)]
    {
      ghost var whole, parent := Reachable(entries, parts, |parts|), create && Creatable(entries, parts);
      for n := 0 to |parts|
        invariant !create || whole || (parent && n < |parts|) ==> entries == old(entries) && ops == old(ops)
        invariant parent && n == |parts| ==>
                    entries == old(entries)[parts := MadeDir(None)] && ops == old(ops) + [MakeDir(parts)]
      {
        var path := parts[..n + 1];
        assert n + 1 == |parts| ==> path == parts;
        assert whole || (parent && n + 1 < |parts|) ==> IsDirectory(old(entries), path);
        if path !in entries {
          if !create {
            return false;
          }
          entries := entries[path := MadeDir(None)];
          ops := ops + [MakeDir(path)];
        }
        if !entries[path].MadeDir? {
          return false;
        }
      }
      found := true;
    }

    /** `_copy_environment_file_at`: the parent must be there, the name must not. */
    method CopyFile(e: Entry) returns (copied: bool)
      requires |e.path| >= 1 && e.node.File?
      modifies this
      ensures Creatable(old(entries), e.path) ==>
                copied && entries == old(entries)[e.path := Raw(e.node)] && ops == old(ops) + [WriteFile(e.path)]
    {
      ReachableParent(entries, e.path);
      copied := Open(e.path[..|e.path| - 1], false);
      if !copied || e.path in entries {
        return false;
      }
      entries := entries[e.path := MadeFile(e.node.content, e.node.meta)];
      ops := ops + [WriteFile(e.path)];
    }

    /** `os.fchmod` and `os.utime` on a directory that is there. */
    method SetMetadata(path: Path, meta: Meta) returns (done: bool)
      modifies this
      ensures Reachable(old(entries), path, |path|) ==>
                done && entries == old(entries)[path := MadeDir(Some(meta))] && ops == old(ops) + [SetMeta(path)]
    {
      assert path[..|path|] == path;
      done := Open(path, false);
      assert Reachable(old(entries), path, |path|) ==> IsDirectory(old(entries), path[..|path|]);
      if !done || path !in entries {
        return false;
      }
      entries := entries[path := MadeDir(Some(meta))];
      ops := ops + [SetMeta(path)];
    }
  }

  /** The parent is there and the path itself is not. */
  ghost predicate Creatable(entries: map<Path, Made>, path: Path) {
    path != [] && Reachable(entries, path, |path| - 1) && path !in entries
  }

  lemma {:induction false} ReachableParent(entries: map<Path, Made>, path: Path)
    requires path != []
    ensures Reachable(entries, path, |path| - 1) ==> Reachable(entries, path[..|path| - 1], |path| - 1)
  {
    if Reachable(entries, path, |path| - 1) {
      var parent := path[..|path| - 1];
      forall k | 0 <= k <= |parent| ensures IsDirectory(entries, parent[..k]) {
        assert parent[..k] == path[..k];
        assert IsDirectory(entries, path[..k]);
      }
    }
  }

  // ---- creating everything --------------------------------------------------------------------------

  ghost predicate Regular(es: seq<Entry>) {
    forall i :: 0 <= i < |es| ==> es[i].node.Dir? || es[i].node.File?
  }

  function CreateOp(e: Entry): Op {
    if e.node.Dir? then MakeDir(e.path) else WriteFile(e.path)
  }

  function Creations(es: seq<Entry>): seq<Op> {
    if es == [] then [] else Creations(es[..|es| - 1]) + [CreateOp(es[|es| - 1])]
  }

  /** The destination holds its root and exactly these entries, with no metadata yet. */
  ghost predicate Holding(entries: map<Path, Made>, es: seq<Entry>) {
    && IsDirectory(entries, []) && Regular(es)
    && (forall i :: 0 <= i < |es| ==> es[i].path in entries && entries[es[i].path] == Raw(es[i].node))
    && forall path :: path in entries ==> path == [] || exists i :: 0 <= i < |es| && es[i].path == path
  }

  lemma {:induction false} NextIsCreatable(entries: map<Path, Made>, all: seq<Entry>, n: nat)
    requires n < |all| && Holding(entries, all[..n]) && NeverBack(all) && ParentsFirst([], all) && all[n].path != []
    ensures Creatable(entries, all[n].path)
  {
    var path := all[n].path;
    forall i | 0 <= i < n ensures all[..n][i].path != path {
      assert !(path <= all[i].path) && path <= path;
    }
    forall k | 0 <= k <= |path| - 1 ensures IsDirectory(entries, path[..k]) {
      if k > 0 {
        assert VisitedDir(all, n, path[..k]);
        var m :| 0 <= m < n && all[m].node.Dir? && all[m].path == path[..k];
        assert all[..n][m] == all[m];
      } else {
        assert path[..0] == [];
      }
    }
  }

  lemma {:induction false} HoldOneMore(entries: map<Path, Made>, all: seq<Entry>, n: nat)
    requires n < |all| && Holding(entries, all[..n]) && Creatable(entries, all[n].path)
    requires all[n].node.Dir? || all[n].node.File?
    ensures Holding(entries[all[n].path := Raw(all[n].node)], all[..n + 1])
  {
    var before, after := all[..n], all[..n + 1];
    var grown := entries[all[n].path := Raw(all[n].node)];
    assert forall i :: 0 <= i < n ==> after[i] == before[i];
    forall path | path in grown && path != [] ensures exists i :: 0 <= i < |after| && after[i].path == path {
      if path == all[n].path {
        assert after[n].path == path;
      } else {
        var i :| 0 <= i < |before| && before[i].path == path;
        assert after[i].path == path;
      }
    }
  }

  // ---- the creating loop ------------------------------------------------------------------------------

  /** Everything still to be visited, the top of the stack being its last element. */
  function ToVisit(stack: seq<Entry>): seq<Entry> {
    if stack == [] then [] else EverythingAt(stack[|stack| - 1]) + ToVisit(stack[..|stack| - 1])
  }

  lemma {:induction false} PushEverything(stack: seq<Entry>, prefix: Path, children: seq<Child>)
    ensures ToVisit(stack + Reversed(Listing(prefix, children))) == Everything(prefix, children) + ToVisit(stack)
    decreases children
  {
    if children == [] {
      assert stack + [] == stack;
    } else {
      var here, rest := Here(prefix, children[0]), Listing(prefix, children[1..]);
      assert ([here] + rest)[1..] == rest;
      PushEverything(stack, prefix, children[1..]);
      var pushed := stack + Reversed(rest);
      assert stack + (Reversed(rest) + [here]) == pushed + [here];
      assert (pushed + [here])[..|pushed|] == pushed;
      assert EverythingAt(here) + (Everything(prefix, children[1..]) + ToVisit(stack)) ==
               (EverythingAt(here) + Everything(prefix, children[1..])) + ToVisit(stack);
    }
  }

  /** `directory_metadata` for the directories among these entries. */
  function DirMetas(es: seq<Entry>): seq<(Path, Meta)> {
    if es == [] then []
    else
      var e := es[|es| - 1];
      DirMetas(es[..|es| - 1]) + if e.node.Dir? then [(e.path, e.node.meta)] else []
  }

  /** n entries are visited and the rest of them wait on the stack. */
  ghost predicate Visiting(all: seq<Entry>, n: nat, stack: seq<Entry>) {
    n <= |all| && all[n..] == ToVisit(stack)
  }

  lemma {:induction false} DropFirst(all: seq<Entry>, n: nat, e: Entry, rest: seq<Entry>)
    requires n <= |all| && all[n..] == [e] + rest
    ensures n < |all| && all[n] == e && all[n + 1..] == rest
  {
    assert all[n..][0] == e && all[n + 1..] == all[n..][1..];
  }

  /** The stack once its top is popped and, for a directory, the entries below it are pushed. */
  function Popped(stack: seq<Entry>): seq<Entry>
    requires stack != []
  {
    var e, rest := stack[|stack| - 1], stack[..|stack| - 1];
    if e.node.Dir? then rest + Reversed(Listing(e.path, e.node.children)) else rest
  }

  lemma {:induction false} PopKeepsOrder(stack: seq<Entry>)
    requires stack != []
    ensures ToVisit(stack) == [stack[|stack| - 1]] + ToVisit(Popped(stack))
    ensures Weight(Popped(stack)) < Weight(stack)
  {
    var e, rest := stack[|stack| - 1], stack[..|stack| - 1];
    if e.node.Dir? {
      PushEverything(rest, e.path, e.node.children);
      PushWeight(rest, e.path, e.node.children);
    }
  }

  lemma {:induction false} VisitTop(all: seq<Entry>, n: nat, stack: seq<Entry>)
    requires Visiting(all, n, stack) && stack != []
    ensures n < |all| && all[n] == stack[|stack| - 1]
    ensures Visiting(all, n + 1, Popped(stack)) && Weight(Popped(stack)) < Weight(stack)
  {
    PopKeepsOrder(stack);
    DropFirst(all, n, stack[|stack| - 1], ToVisit(Popped(stack)));
  }

  /** What the copy has done after n entries. */
  ghost predicate Created(
    entries: map<Path, Made>, ops: seq<Op>, all: seq<Entry>, n: nat, meta: Meta, metas: seq<(Path, Meta)>, load: Load)
  {
    && n <= |all| && Holding(entries, all[..n]) && ops == Creations(all[..n])
    && metas == [([], meta)] + DirMetas(all[..n])
    && load == LoadOf(all[..n]) && WithinCopyLimits(load)
  }

  /** One entry's weight on the limits. */
  function Adding(load: Load, node: Node): Load {
    if node.Dir? then load
    else if node.File? then Load(load.files + 1, load.bytes + |node.content|, load.regular)
    else Load(load.files + 1, load.bytes, false)
  }

  lemma {:induction false} LoadStep(all: seq<Entry>, n: nat)
    requires n < |all|
    ensures LoadOf(all[..n + 1]) == Adding(LoadOf(all[..n]), all[n].node)
    ensures LoadOf(all[..n + 1]).files <= LoadOf(all).files && LoadOf(all[..n + 1]).bytes <= LoadOf(all).bytes
    ensures !LoadOf(all[..n + 1]).regular ==> !LoadOf(all).regular
  {
    LoadAppend(all[..n], [all[n]]);
    assert all[..n + 1] == all[..n] + [all[n]] && [all[n]][1..] == [];
    LoadAppend(all[..n + 1], all[n + 1..]);
    assert all == all[..n + 1] + all[n + 1..];
  }

  ghost predicate Ordered(all: seq<Entry>) {
    NeverBack(all) && ParentsFirst([], all) && forall i :: 0 <= i < |all| ==> all[i].path != []
  }

  lemma {:induction false} EverythingIsOrdered(children: seq<Child>)
    requires WellFormed(children)
    ensures Ordered(Everything([], children))
  {
    var all := Everything([], children);
    VisitsNeverGoBack([], children);
    ParentsAreFirst([], children);
    forall i | 0 <= i < |all| ensures all[i].path != [] {
      var j, rest := EverythingUnderAChild([], children, all[i]);
    }
  }

  lemma {:induction false} CreatedOneMore(
    entries: map<Path, Made>, ops: seq<Op>, all: seq<Entry>, n: nat, meta: Meta, metas: seq<(Path, Meta)>, load: Load)
    requires n < |all| && Ordered(all) && Created(entries, ops, all, n, meta, metas, load)
    requires all[n].node.Dir? || all[n].node.File?
    requires WithinCopyLimits(Adding(load, all[n].node))
    ensures Created(entries[all[n].path := Raw(all[n].node)], ops + [CreateOp(all[n])], all, n + 1, meta,
                    if all[n].node.Dir? then metas + [(all[n].path, all[n].node.meta)] else metas,
                        Adding(load, all[n].node))
  {
    LoadStep(all, n);
    NextIsCreatable(entries, all, n);
    HoldOneMore(entries, all, n);
    assert all[..n + 1][..n] == all[..n];
  }

  predicate WithinCopyLimits(load: Load) {
    load.regular && load.files <= MAX_FILES && load.bytes <= MAX_BYTES
  }

  /** An entry that is refused takes the whole tree over a limit. */
  lemma {:induction false} RefusalIsRight(all: seq<Entry>, n: nat)
    requires n < |all| && !WithinCopyLimits(Adding(LoadOf(all[..n]), all[n].node))
    ensures !WithinCopyLimits(LoadOf(all))
  {
    LoadStep(all, n);
  }

  /** The body of the traversal: one entry is refused or created. */
  method VisitEntry(dest: Destination, ghost all: seq<Entry>, ghost n: nat, ghost meta: Meta, e: Entry,
                    before: seq<(Path, Meta)>, load: Load)
    returns (error: Option<Error>, metas: seq<(Path, Meta)>)
    requires n < |all| && e == all[n] && Ordered(all) && Created(dest.entries, dest.ops, all, n, meta, before, load)
    modifies dest
    ensures error.None? ==> Created(dest.entries, dest.ops, all, n + 1, meta, metas, Adding(load, e.node))
    ensures error.Some? ==> !WithinCopyLimits(LoadOf(all))
  {
    metas := before;
    if e.node.Link? {
      RefusalIsRight(all, n);
      return Some(Symlink(e.path)), metas;
    }
    if !e.node.Dir? && !e.node.File? {
      RefusalIsRight(all, n);
      return Some(NonRegular(e.path)), metas;
    }
    if e.node.File? && load.files >= MAX_FILES {
      RefusalIsRight(all, n);
      return Some(TooManyFiles), metas;
    }
    if e.node.File? && load.bytes + |e.node.content| > MAX_BYTES {
      RefusalIsRight(all, n);
      return Some(TooManyBytes), metas;
    }
    CreatedOneMore(dest.entries, dest.ops, all, n, meta, metas, load);
    NextIsCreatable(dest.entries, all, n);
    var created := CreateEntry(dest, e);
    if e.node.Dir? {
      metas := metas + [(e.path, e.node.meta)];
    }
    error := None;
  }

  lemma {:induction false} NothingCreated(all: seq<Entry>, meta: Meta)
    ensures Created(map[[] := MadeDir(None)], [], all, 0, meta, [([], meta)], Load(0, 0, true))
  {
    assert all[..0] == [] && [([], meta)] == [([], meta)] + DirMetas([]);
  }

  /** The traversal that creates directories and files. */
  method CreateAll(dest: Destination, meta: Meta, children: seq<Child>)
    returns (error: Option<Error>, metas: seq<(Path, Meta)>, files: nat)
    requires WellFormed(children) && dest.entries == map[[] := MadeDir(None)] && dest.ops == []
    modifies dest
    ensures error.None? <==> WithinCopyLimits(LoadOf(Everything([], children)))
    ensures error.None? ==>
              var all := Everything([], children);
              Created(dest.entries, dest.ops, all, |all|, meta, metas, LoadOf(all)) && files == LoadOf(all).files
  {
    ghost var all, n := Everything([], children), 0;
    var stack := Reversed(Listing([], children));
    var load := Load(0, 0, true);
    metas, files := [([], meta)], 0;
    EverythingIsOrdered(children);
    PushEverything([], [], children);
    NothingCreated(all, meta);
    assert [] + stack == stack && all[0..] == all == all + [];
    while stack != []
      invariant Visiting(all, n, stack)
      invariant Created(dest.entries, dest.ops, all, n, meta, metas, load)
      decreases Weight(stack)
    {
      var e := stack[|stack| - 1];
      VisitTop(all, n, stack);
      error, metas := VisitEntry(dest, all, n, meta, e, metas, load);
      if error.Some? {
        return error, metas, files;
      }
      stack := stack[..|stack| - 1];
      if e.node.Dir? {
        stack := stack + Reversed(Listing(e.path, e.node.children));
      }
      load := Adding(load, e.node);
      n := n + 1;
    }
    assert n == |all| && all[..n] == all;
    error, files := None, load.files;
  }

  method CreateEntry(dest: Destination, e: Entry) returns (created: bool)
    requires Creatable(dest.entries, e.path) && (e.node.Dir? || e.node.File?)
    modifies dest
    ensures created && dest.entries == old(dest.entries)[e.path := Raw(e.node)]
              && dest.ops == old(dest.ops) + [CreateOp(e)]
  {
    if e.node.Dir? {
      created := dest.Open(e.path, true);
    } else {
      created := dest.CopyFile(e);
    }
  }

  // ---- setting directory metadata ---------------------------------------------------------------------

  lemma {:induction false} MetasAreDirectories(es: seq<Entry>, path: Path, meta: Meta)
    ensures (path, meta) in DirMetas(es) <==>
              exists k :: 0 <= k < |es| && es[k].node.Dir? && es[k].path == path && es[k].node.meta == meta
  {
    if es != [] {
      var n := |es| - 1;
      MetasAreDirectories(es[..n], path, meta);
      assert es == es[..n] + [es[n]];
    }
  }

  ghost predicate PathsNeverBack(metas: seq<(Path, Meta)>) {
    forall a, b :: 0 <= a < b < |metas| ==> !(metas[b].0 <= metas[a].0)
  }

  lemma {:induction false} MetasNeverGoBack(es: seq<Entry>)
    requires NeverBack(es)
    ensures PathsNeverBack(DirMetas(es))
  {
    if es != [] {
      var n := |es| - 1;
      var before := DirMetas(es[..n]);
      MetasNeverGoBack(es[..n]);
      forall a | 0 <= a < |before| ensures !(es[n].path <= before[a].0) {
        MetasAreDirectories(es[..n], before[a].0, before[a].1);
        assert (before[a].0, before[a].1) == before[a];
        var k :| 0 <= k < n && es[..n][k].path == before[a].0;
        assert es[..n][k] == es[k];
      }
    }
  }

  lemma {:induction false} RootFirst(all: seq<Entry>, meta: Meta)
    requires Ordered(all)
    ensures PathsNeverBack([([], meta)] + DirMetas(all))
  {
    var rest := DirMetas(all);
    MetasNeverGoBack(all);
    forall b | 0 <= b < |rest| ensures rest[b].0 != [] {
      MetasAreDirectories(all, rest[b].0, rest[b].1);
      assert (rest[b].0, rest[b].1) == rest[b];
    }
  }

  /** From the i-th directory on metadata is set; all else is as it was created. */
  ghost predicate Settled(created: map<Path, Made>, entries: map<Path, Made>, metas: seq<(Path, Meta)>, i: nat) {
    && i <= |metas| && entries.Keys == created.Keys
    && (forall j :: i <= j < |metas| ==> metas[j].0 in entries && entries[metas[j].0] == MadeDir(Some(metas[j].1)))
    && forall path :: path in created && (forall j :: i <= j < |metas| ==> metas[j].0 != path) ==>
      entries[path] == created[path]
  }

  /** Every directory to be settled can be reached in what was created. */
  ghost predicate AllReachable(created: map<Path, Made>, metas: seq<(Path, Meta)>) {
    forall j :: 0 <= j < |metas| ==> Reachable(created, metas[j].0, |metas[j].0|)
  }

  lemma {:induction false} StillReachable(
    created: map<Path, Made>, entries: map<Path, Made>, metas: seq<(Path, Meta)>, i: nat, path: Path)
    requires Settled(created, entries, metas, i) && Reachable(created, path, |path|)
    ensures Reachable(entries, path, |path|)
  {
    forall k | 0 <= k <= |path| ensures IsDirectory(entries, path[..k]) {
      assert IsDirectory(created, path[..k]);
    }
  }

  lemma {:induction false} SettleOne(
    created: map<Path, Made>, entries: map<Path, Made>, metas: seq<(Path, Meta)>, i: nat)
    requires i < |metas| && Settled(created, entries, metas, i + 1) && AllReachable(created, metas)
               && PathsNeverBack(metas)
    ensures Settled(created, entries[metas[i].0 := MadeDir(Some(metas[i].1))], metas, i)
  {
    var path := metas[i].0;
    assert path[..|path|] == path && IsDirectory(created, path[..|path|]);
    forall j | i < j < |metas| ensures metas[j].0 != path {
      assert !(metas[j].0 <= path) && path <= path;
    }
  }

  function MetaOps(metas: seq<(Path, Meta)>): seq<Op> {
    if metas == [] then [] else [SetMeta(metas[|metas| - 1].0)] + MetaOps(metas[..|metas| - 1])
  }

  /** The second loop of the copy: directories in reverse order of their creation. */
  method SettleAll(dest: Destination, metas: seq<(Path, Meta)>)
    requires AllReachable(dest.entries, metas) && PathsNeverBack(metas)
    modifies dest
    ensures Settled(old(dest.entries), dest.entries, metas, 0)
    ensures dest.ops == old(dest.ops) + MetaOps(metas)
  {
    assert metas[..|metas|] == metas;
    for i := |metas| downto 0
      invariant Settled(old(dest.entries), dest.entries, metas, i)
      invariant dest.ops + MetaOps(metas[..i]) == old(dest.ops) + MetaOps(metas)
    {
      SettleNext(dest, old(dest.entries), metas, i);
    }
  }

  method SettleNext(dest: Destination, ghost created: map<Path, Made>, metas: seq<(Path, Meta)>, i: nat)
    requires i < |metas| && Settled(created, dest.entries, metas, i + 1)
    requires AllReachable(created, metas) && PathsNeverBack(metas)
    modifies dest
    ensures Settled(created, dest.entries, metas, i)
    ensures dest.ops + MetaOps(metas[..i]) == old(dest.ops) + MetaOps(metas[..i + 1])
  {
    SettleOne(created, dest.entries, metas, i);
    StillReachable(created, dest.entries, metas, i + 1, metas[i].0);
    assert metas[..i + 1][..i] == metas[..i];
    var done := dest.SetMetadata(metas[i].0, metas[i].1);
  }

  // ---- the whole copy -----------------------------------------------------------------------------------

  /** The destination is the source: the same paths, contents and metadata, and nothing else. */
  ghost predicate Mirrors(entries: map<Path, Made>, meta: Meta, children: seq<Child>) {
    var all := Everything([], children);
    && Regular(all) && [] in entries && entries[[]] == MadeDir(Some(meta))
    && (forall i :: 0 <= i < |all| ==> all[i].path in entries && entries[all[i].path] == Finished(all[i].node))
    && forall path :: path in entries ==> path == [] || exists i :: 0 <= i < |all| && all[i].path == path
  }

  lemma {:induction false} CreatedIsReachable(entries: map<Path, Made>, all: seq<Entry>, i: nat)
    requires Ordered(all) && Holding(entries, all) && i < |all| && all[i].node.Dir?
    ensures Reachable(entries, all[i].path, |all[i].path|)
  {
    var path := all[i].path;
    forall k | 0 <= k <= |path| ensures IsDirectory(entries, path[..k]) {
      if k == 0 {
        assert path[..0] == [];
      } else if k == |path| {
        assert path[..k] == path;
      } else {
        assert VisitedDir(all, i, path[..k]);
        var m :| 0 <= m < i && all[m].node.Dir? && all[m].path == path[..k];
      }
    }
  }

  lemma {:induction false} MetasAreReachable(entries: map<Path, Made>, all: seq<Entry>, meta: Meta)
    requires Ordered(all) && Holding(entries, all)
    ensures AllReachable(entries, [([], meta)] + DirMetas(all))
  {
    var metas := [([], meta)] + DirMetas(all);
    forall j | 0 <= j < |metas| ensures Reachable(entries, metas[j].0, |metas[j].0|) {
      if j > 0 {
        MetasAreDirectories(all, metas[j].0, metas[j].1);
        assert (metas[j].0, metas[j].1) == DirMetas(all)[j - 1];
        var k :| 0 <= k < |all| && all[k].node.Dir? && all[k].path == metas[j].0;
        CreatedIsReachable(entries, all, k);
      }
    }
  }

  lemma {:induction false} SettledEntry(
    created: map<Path, Made>, entries: map<Path, Made>, all: seq<Entry>, meta: Meta, i: nat)
    requires Ordered(all) && Holding(created, all) && Settled(created, entries, [([], meta)] + DirMetas(all), 0)
               && i < |all|
    ensures all[i].path in entries && entries[all[i].path] == Finished(all[i].node)
  {
    var metas, e := [([], meta)] + DirMetas(all), all[i];
    if e.node.Dir? {
      MetasAreDirectories(all, e.path, e.node.meta);
      var j :| 0 <= j < |DirMetas(all)| && DirMetas(all)[j] == (e.path, e.node.meta);
      assert metas[j + 1] == (e.path, e.node.meta);
    } else {
      forall j | 0 <= j < |metas| ensures metas[j].0 != e.path {
        if j > 0 {
          MetasAreDirectories(all, metas[j].0, metas[j].1);
          assert (metas[j].0, metas[j].1) == DirMetas(all)[j - 1];
          var k :| 0 <= k < |all| && all[k].node.Dir? && all[k].path == metas[j].0;
          DistinctEntries(all, i, k);
        }
      }
    }
  }

  lemma {:induction false} DistinctEntries(all: seq<Entry>, i: nat, k: nat)
    requires NeverBack(all) && i < |all| && k < |all| && i != k
    ensures all[i].path != all[k].path
  {
    var a, b := if i < k then i else k, if i < k then k else i;
    assert !(all[b].path <= all[a].path) && all[a].path <= all[a].path;
  }

  lemma {:induction false} SettledMirrors(
    created: map<Path, Made>, entries: map<Path, Made>, meta: Meta, children: seq<Child>)
    requires var all := Everything([], children);
             Ordered(all) && Holding(created, all) && Settled(created, entries, [([], meta)] + DirMetas(all), 0)
    ensures Mirrors(entries, meta, children)
  {
    var all := Everything([], children);
    var metas := [([], meta)] + DirMetas(all);
    assert metas[0] == ([], meta);
    forall i | 0 <= i < |all| ensures all[i].path in entries && entries[all[i].path] == Finished(all[i].node) {
      SettledEntry(created, entries, all, meta, i);
    }
  }

  /** The changes a successful copy makes, in order. */
  function CopyLog(meta: Meta, children: seq<Child>): seq<Op> {
    var all := Everything([], children);
    Creations(all) + MetaOps([([], meta)] + DirMetas(all))
  }

  /** The copy itself: everything is created, then the directories' metadata is set. */
  method CopyContents(dest: Destination, meta: Meta, children: seq<Child>) returns (error: Option<Error>)
    requires WellFormed(children) && dest.entries == map[[] := MadeDir(None)] && dest.ops == []
    modifies dest
    ensures error.None? <==> Scannable(Leaves([], children))
    ensures error.None? ==> Mirrors(dest.entries, meta, children) && dest.ops == CopyLog(meta, children)
  {
    ghost var all := Everything([], children);
    assert all[..|all|] == all;
    LoadableIffScannable(children);
    var metas, files;
    error, metas, files := CreateAll(dest, meta, children);
    if error.Some? {
      return;
    }
    if files == 0 {
      return Some(NoFiles);
    }
    Settle(dest, meta, children, metas);
  }

  method Settle(dest: Destination, meta: Meta, children: seq<Child>, metas: seq<(Path, Meta)>)
    requires WellFormed(children)
    requires var all := Everything([], children);
             && Holding(dest.entries, all) && dest.ops == Creations(all) && metas == [([], meta)] + DirMetas(all)
    modifies dest
    ensures Mirrors(dest.entries, meta, children) && dest.ops == CopyLog(meta, children)
  {
    ghost var all := Everything([], children);
    EverythingIsOrdered(children);
    MetasAreReachable(dest.entries, all, meta);
    RootFirst(all, meta);
    ghost var created := dest.entries;
    SettleAll(dest, metas);
    SettledMirrors(created, dest.entries, meta, children);
  }

  // ---- the order of the changes -------------------------------------------------------------------------

  lemma {:induction false} CreationsInOrder(es: seq<Entry>)
    ensures |Creations(es)| == |es| && forall i :: 0 <= i < |es| ==> Creations(es)[i] == CreateOp(es[i])
  {
    if es != [] {
      CreationsInOrder(es[..|es| - 1]);
    }
  }

  lemma {:induction false} MetaOpsInReverse(metas: seq<(Path, Meta)>)
    ensures |MetaOps(metas)| == |metas|
    ensures forall i :: 0 <= i < |metas| ==> MetaOps(metas)[i] == SetMeta(metas[|metas| - 1 - i].0)
  {
    if metas != [] {
      MetaOpsInReverse(metas[..|metas| - 1]);
    }
  }

  /** Every directory is made before anything inside it. */
  lemma {:induction false} ParentsAreCreatedFirst(meta: Meta, children: seq<Child>, j: nat)
    requires WellFormed(children) && j < |CopyLog(meta, children)|
    requires !CopyLog(meta, children)[j].SetMeta? && |CopyLog(meta, children)[j].path| > 1
    ensures var path := CopyLog(meta, children)[j].path;
            exists i :: 0 <= i < j && CopyLog(meta, children)[i] == MakeDir(path[..|path| - 1])
  {
    var all := Everything([], children);
    var log := CopyLog(meta, children);
    EverythingIsOrdered(children);
    CreationsInOrder(all);
    MetaOpsInReverse([([], meta)] + DirMetas(all));
    var path := log[j].path;
    assert log[j] == CreateOp(all[j]) && VisitedDir(all, j, path[..|path| - 1]);
    var m :| 0 <= m < j && all[m].node.Dir? && all[m].path == path[..|path| - 1];
    assert log[m] == CreateOp(all[m]);
  }

  /** Once a directory's metadata is set, nothing is done to it or below it any more. */
  lemma {:induction false} MetadataIsSetLast(meta: Meta, children: seq<Child>, i: nat, j: nat)
    requires WellFormed(children) && i < j < |CopyLog(meta, children)| && CopyLog(meta, children)[i].SetMeta?
    ensures CopyLog(meta, children)[j].SetMeta?
    ensures !(CopyLog(meta, children)[i].path <= CopyLog(meta, children)[j].path)
  {
    var all := Everything([], children);
    var metas := [([], meta)] + DirMetas(all);
    EverythingIsOrdered(children);
    RootFirst(all, meta);
    CreationsInOrder(all);
    MetaOpsInReverse(metas);
    var log, n := CopyLog(meta, children), |all|;
    forall k | 0 <= k < n ensures !log[k].SetMeta? {
      assert log[k] == CreateOp(all[k]);
    }
    assert log[i] == MetaOps(metas)[i - n] && log[j] == MetaOps(metas)[j - n];
  }
}
