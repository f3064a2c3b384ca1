/** The two scans of benchmark_env.py: an explicit stack over source paths, and one over descriptors. */
module EnvScan {
  import opened Prelude
  import opened EnvTree

  const MAX_FILES: nat := 10_000
  const MAX_BYTES: nat := 64 * 1024 * 1024

  datatype Record = Record(path: string, sha256: string, size: nat, executable: bool)

  datatype Scanned = Scanned(files: seq<Record>, total: nat)

  datatype Error = Symlink(path: Path) | NonRegular(path: Path) | TooManyFiles | TooManyBytes | NoFiles

  type Digest = string -> string

  /** The owner's execute bit. */
  predicate Executable(meta: Meta) {
    meta.mode / 64 % 2 == 1
  }

  function RecordOf(e: Entry, sha: Digest): Record
    requires e.node.File? && |e.path| >= 1
  {
    Record(Join(e.path), sha(e.node.content), |e.node.content|, Executable(e.node.meta))
  }

  // ---- the recursive walk -------------------------------------------------------------------------

  /** One file is added, or the walk stops at the first entry it may not contain. */
  function Visit(scanned: Scanned, e: Entry, sha: Digest): Result<Scanned, Error>
    requires |e.path| >= 1
  {
    if e.node.Link? then Err(Symlink(e.path))
    else if !e.node.File? then Err(NonRegular(e.path))
    else if |scanned.files| >= MAX_FILES then Err(TooManyFiles)
    else if scanned.total + |e.node.content| > MAX_BYTES then Err(TooManyBytes)
    else Ok(Scanned(scanned.files + [RecordOf(e, sha)], scanned.total + |e.node.content|))
  }

  ghost predicate Rooted(es: seq<Entry>) {
    forall i :: 0 <= i < |es| ==> |es[i].path| >= 1
  }

  function VisitAll(scanned: Scanned, es: seq<Entry>, sha: Digest): Result<Scanned, Error>
    requires Rooted(es)
    decreases |es|
  {
    if es == [] then Ok(scanned)
    else
      var next := Visit(scanned, es[0], sha);
      if next.Err? then next else VisitAll(next.value, es[1..], sha)
  }

  lemma {:induction false} LeavesAreRooted(prefix: Path, children: seq<Child>)
    ensures Rooted(Leaves(prefix, children))
    decreases children
  {
    if children != [] {
      LeavesAreRooted(prefix, children[1..]);
      if children[0].node.Dir? {
        LeavesAreRooted(prefix + [children[0].name], children[0].node.children);
      }
    }
  }

  /** What the scan of a directory with these children comes to. */
  function Walk(children: seq<Child>, sha: Digest): Result<Scanned, Error> {
    LeavesAreRooted([], children);
    var walked := VisitAll(Scanned([], 0), Leaves([], children), sha);
    if walked.Ok? && walked.value.files == [] then Err(NoFiles) else walked
  }

  // ---- the explicit stack -------------------------------------------------------------------------

  /** The listing of a directory as stack entries. */
  function Listing(prefix: Path, children: seq<Child>): seq<Entry> {
    if children == [] then [] else [Here(prefix, children[0])] + Listing(prefix, children[1..])
  }

  function Reversed(es: seq<Entry>): seq<Entry> {
    if es == [] then [] else Reversed(es[1..]) + [es[0]]
  }

  /** The leaves still to come, the top of the stack being its last element. */
  function Pending(stack: seq<Entry>): seq<Entry> {
    if stack == [] then [] else LeavesOf(stack[|stack| - 1]) + Pending(stack[..|stack| - 1])
  }

  function Weight(stack: seq<Entry>): nat {
    if stack == [] then 0 else Size(stack[|stack| - 1].node) + Weight(stack[..|stack| - 1])
  }

  lemma {:induction false} ReversedListing(stack: seq<Entry>, prefix: Path, children: seq<Child>)
    requires children != []
    ensures stack + Reversed(Listing(prefix, children)) ==
              (stack + Reversed(Listing(prefix, children[1..]))) + [Here(prefix, children[0])]
  {
    var here, rest := Here(prefix, children[0]), Listing(prefix, children[1..]);
    assert ([here] + rest)[1..] == rest;
  }

  lemma {:induction false} PushLeaves(stack: seq<Entry>, prefix: Path, children: seq<Child>)
    ensures Pending(stack + Reversed(Listing(prefix, children))) == Leaves(prefix, children) + Pending(stack)
    decreases children
  {
    if children == [] {
      assert stack + [] == stack && [] + Pending(stack) == Pending(stack);
    } else {
      var here := Here(prefix, children[0]);
      PushLeaves(stack, prefix, children[1..]);
      ReversedListing(stack, prefix, children);
      PushOne(stack + Reversed(Listing(prefix, children[1..])), here);
      AppendAssociates(LeavesOf(here), Leaves(prefix, children[1..]), Pending(stack));
    }
  }

  lemma {:induction false} PushWeight(stack: seq<Entry>, prefix: Path, children: seq<Child>)
    ensures Weight(stack + Reversed(Listing(prefix, children))) == Sizes(children) + Weight(stack)
    decreases children
  {
    if children == [] {
      assert stack + [] == stack;
    } else {
      PushWeight(stack, prefix, children[1..]);
      ReversedListing(stack, prefix, children);
      PushOne(stack + Reversed(Listing(prefix, children[1..])), Here(prefix, children[0]));
    }
  }

  lemma {:induction false} PushRooted(stack: seq<Entry>, prefix: Path, children: seq<Child>)
    requires Rooted(stack)
    ensures Rooted(stack + Reversed(Listing(prefix, children)))
    decreases children
  {
    if children == [] {
      assert stack + [] == stack;
    } else {
      PushRooted(stack, prefix, children[1..]);
      ReversedListing(stack, prefix, children);
    }
  }

  /** Pushing a reversed listing makes its leaves the next ones. */
  lemma {:induction false} PushListing(stack: seq<Entry>, prefix: Path, children: seq<Child>)
    ensures Pending(stack + Reversed(Listing(prefix, children))) == Leaves(prefix, children) + Pending(stack)
    ensures Weight(stack + Reversed(Listing(prefix, children))) == Sizes(children) + Weight(stack)
    ensures Rooted(stack) ==> Rooted(stack + Reversed(Listing(prefix, children)))
  {
    PushLeaves(stack, prefix, children);
    PushWeight(stack, prefix, children);
    if Rooted(stack) {
      PushRooted(stack, prefix, children);
    }
  }

  lemma {:induction false} PushOne(stack: seq<Entry>, e: Entry)
    ensures Pending(stack + [e]) == LeavesOf(e) + Pending(stack)
    ensures Weight(stack + [e]) == Size(e.node) + Weight(stack)
  {
    assert (stack + [e])[..|stack|] == stack;
  }

  lemma {:induction false} PendingIsRooted(stack: seq<Entry>)
    requires Rooted(stack)
    ensures Rooted(Pending(stack))
  {
    if stack != [] {
      var top := stack[|stack| - 1];
      PendingIsRooted(stack[..|stack| - 1]);
      if top.node.Dir? {
        LeavesAreRooted(top.path, top.node.children);
      }
    }
  }

  /** From here on the scan comes to this outcome. */
  ghost predicate Continues(scanned: Scanned, stack: seq<Entry>, sha: Digest, outcome: Result<Scanned, Error>) {
    Rooted(stack) && Rooted(Pending(stack)) && VisitAll(scanned, Pending(stack), sha) == outcome
  }

  lemma {:induction false} PopDirectory(
    scanned: Scanned, stack: seq<Entry>, sha: Digest, outcome: Result<Scanned, Error>)
    requires stack != [] && stack[|stack| - 1].node.Dir? && Continues(scanned, stack, sha, outcome)
    ensures var e := stack[|stack| - 1];
            var pushed := stack[..|stack| - 1] + Reversed(Listing(e.path, e.node.children));
            Continues(scanned, pushed, sha, outcome) && Weight(pushed) < Weight(stack)
  {
    var e := stack[|stack| - 1];
    PushListing(stack[..|stack| - 1], e.path, e.node.children);
  }

  lemma {:induction false} PopLeaf(scanned: Scanned, stack: seq<Entry>, sha: Digest, outcome: Result<Scanned, Error>)
    requires stack != [] && !stack[|stack| - 1].node.Dir? && Continues(scanned, stack, sha, outcome)
    ensures var next := Visit(scanned, stack[|stack| - 1], sha);
            if next.Err? then outcome == next
            else
              && Continues(next.value, stack[..|stack| - 1], sha, outcome)
              && Weight(stack[..|stack| - 1]) < Weight(stack)
  {
    assert Pending(stack)[0] == stack[|stack| - 1];
    assert Pending(stack)[1..] == Pending(stack[..|stack| - 1]);
    PendingIsRooted(stack[..|stack| - 1]);
  }

  /** The loop body of both scans for an entry that is no directory. */
  method RecordFile(scanned: Scanned, e: Entry, sha: Digest) returns (outcome: Result<Scanned, Error>)
    requires |e.path| >= 1 && !e.node.Dir?
    ensures outcome == Visit(scanned, e, sha)
  {
    if e.node.Link? {
      return Err(Symlink(e.path));
    }
    if !e.node.File? {
      return Err(NonRegular(e.path));
    }
    if |scanned.files| >= MAX_FILES {
      return Err(TooManyFiles);
    }
    if scanned.total + |e.node.content| > MAX_BYTES {
      return Err(TooManyBytes);
    }
    outcome := Ok(Scanned(scanned.files + [RecordOf(e, sha)], scanned.total + |e.node.content|));
  }

  /** `_scan_environment` of a quiet tree: the stack loop is the recursive walk. */
  method ScanEnvironment(children: seq<Child>, sha: Digest) returns (outcome: Result<Scanned, Error>)
    ensures outcome == Walk(children, sha)
  {
    var scanned := Scanned([], 0);
    var stack := Reversed(Listing([], children));
    LeavesAreRooted([], children);
    ghost var whole := VisitAll(scanned, Leaves([], children), sha);
    PushListing([], [], children);
    assert [] + stack == stack && Leaves([], children) + [] == Leaves([], children);
    while stack != []
      invariant Continues(scanned, stack, sha, whole)
      decreases Weight(stack)
    {
      var e := stack[|stack| - 1];
      if e.node.Dir? {
        PopDirectory(scanned, stack, sha, whole);
        stack := stack[..|stack| - 1] + Reversed(Listing(e.path, e.node.children));
        continue;
      }
      PopLeaf(scanned, stack, sha, whole);
      stack := stack[..|stack| - 1];
      var next := RecordFile(scanned, e, sha);
      if next.Err? {
        return next;
      }
      scanned := next.value;
    }
    outcome := if scanned.files == [] then Err(NoFiles) else Ok(scanned);
  }

  // ---- when a scan succeeds, and with what ---------------------------------------------------------

  function Total(es: seq<Entry>): nat {
    if es == [] then 0 else (if es[0].node.File? then |es[0].node.content| else 0) + Total(es[1..])
  }

  ghost predicate AllFiles(es: seq<Entry>) {
    forall i :: 0 <= i < |es| ==> es[i].node.File?
  }

  function Records(es: seq<Entry>, sha: Digest): (rs: seq<Record>)
    requires Rooted(es) && AllFiles(es)
    ensures |rs| == |es| && forall i :: 0 <= i < |es| ==> rs[i] == RecordOf(es[i], sha)
  {
    if es == [] then [] else [RecordOf(es[0], sha)] + Records(es[1..], sha)
  }

  /** Every leaf is a regular file, at least one, and both limits hold. */
  ghost predicate Scannable(es: seq<Entry>) {
    AllFiles(es) && 1 <= |es| <= MAX_FILES && Total(es) <= MAX_BYTES
  }

  /** What is left of the limits suffices for the entries. */
  ghost predicate Fits(scanned: Scanned, es: seq<Entry>) {
    AllFiles(es) && |scanned.files| + |es| <= MAX_FILES && scanned.total + Total(es) <= MAX_BYTES
  }

  lemma {:induction false} FitsStep(scanned: Scanned, es: seq<Entry>, sha: Digest)
    requires Rooted(es) && es != [] && |scanned.files| <= MAX_FILES && scanned.total <= MAX_BYTES
    ensures var next := Visit(scanned, es[0], sha);
            Fits(scanned, es) <==> next.Ok? && Fits(next.value, es[1..])
  {
    assert AllFiles(es) <==> es[0].node.File? && AllFiles(es[1..]) by {
      assert es == [es[0]] + es[1..];
    }
  }

  lemma {:induction false} VisitAllSucceedsIff(scanned: Scanned, es: seq<Entry>, sha: Digest)
    requires Rooted(es) && |scanned.files| <= MAX_FILES && scanned.total <= MAX_BYTES
    ensures VisitAll(scanned, es, sha).Ok? <==> Fits(scanned, es)
    decreases |es|
  {
    if es != [] {
      FitsStep(scanned, es, sha);
      var next := Visit(scanned, es[0], sha);
      if next.Ok? {
        VisitAllSucceedsIff(next.value, es[1..], sha);
      }
    }
  }

  lemma {:induction false} RecordsFirst(es: seq<Entry>, sha: Digest, before: seq<Record>)
    requires es != [] && Rooted(es) && AllFiles(es)
    ensures before + [RecordOf(es[0], sha)] + Records(es[1..], sha) == before + Records(es, sha)
  {
  }

  lemma {:induction false} VisitAllCollects(scanned: Scanned, es: seq<Entry>, sha: Digest)
    requires Rooted(es) && AllFiles(es) && VisitAll(scanned, es, sha).Ok?
    ensures VisitAll(scanned, es, sha).value == Scanned(scanned.files + Records(es, sha), scanned.total + Total(es))
    decreases |es|
  {
    if es == [] {
      assert scanned.files + [] == scanned.files;
    } else {
      VisitAllCollects(Visit(scanned, es[0], sha).value, es[1..], sha);
      RecordsFirst(es, sha, scanned.files);
    }
  }

  /** The scan succeeds exactly on such trees, with one record a file in walk order and the exact byte count. */
  lemma {:induction false} ScanSucceedsIff(children: seq<Child>, sha: Digest)
    ensures Walk(children, sha).Ok? <==> Scannable(Leaves([], children))
    ensures Walk(children, sha).Ok? ==>
              Rooted(Leaves([], children)) &&
              Walk(children, sha).value == Scanned(Records(Leaves([], children), sha), Total(Leaves([], children)))
  {
    LeavesAreRooted([], children);
    VisitAllSucceedsIff(Scanned([], 0), Leaves([], children), sha);
    var walked := VisitAll(Scanned([], 0), Leaves([], children), sha);
    if walked.Ok? {
      VisitAllCollects(Scanned([], 0), Leaves([], children), sha);
      assert [] + Records(Leaves([], children), sha) == Records(Leaves([], children), sha);
    }
  }
}
