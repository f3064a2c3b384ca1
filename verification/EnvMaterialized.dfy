/**
 * The scan of a materialized tree in benchmark_env.py: directory by directory, files at once and
 * subdirectories later, sorted by path at the end.
 */
module EnvMaterialized {
  import opened Prelude
  import opened EnvTree
  import opened EnvOrder
  import opened EnvScan
  import opened EnvSeal

  // ---- counting without an order ------------------------------------------------------------------

  /** What matters of a list of entries when its order does not. */
  datatype Sums = Sums(count: nat, total: nat, regular: bool, records: multiset<Record>)

  function Plus(a: Sums, b: Sums): Sums {
    Sums(a.count + b.count, a.total + b.total, a.regular && b.regular, a.records + b.records)
  }

  function Nothing(): (n: Sums)
    ensures forall r :: r !in n.records
  {
    Sums(0, 0, true, multiset{})
  }

  lemma {:induction false} PlusNothing(a: Sums)
    ensures Plus(a, Nothing()) == a == Plus(Nothing(), a)
  {
  }

  lemma {:induction false} PlusAssociates(a: Sums, b: Sums, c: Sums)
    ensures Plus(a, Plus(b, c)) == Plus(Plus(a, b), c)
    ensures Plus(a, Plus(b, c)) == Plus(b, Plus(a, c))
  {
  }

  function One(e: Entry, sha: Digest): Sums
    requires |e.path| >= 1
  {
    if e.node.File? then Sums(1, |e.node.content|, true, multiset{RecordOf(e, sha)}) else Sums(1, 0, false, multiset{})
  }

  function SumsOf(es: seq<Entry>, sha: Digest): Sums
    requires Rooted(es)
  {
    if es == [] then Nothing() else Plus(One(es[0], sha), SumsOf(es[1..], sha))
  }

  lemma {:induction false} SumsAppend(xs: seq<Entry>, ys: seq<Entry>, sha: Digest)
    requires Rooted(xs) && Rooted(ys)
    ensures Rooted(xs + ys) && SumsOf(xs + ys, sha) == Plus(SumsOf(xs, sha), SumsOf(ys, sha))
  {
    if xs == [] {
      assert xs + ys == ys;
      PlusNothing(SumsOf(ys, sha));
    } else {
      assert (xs + ys)[1..] == xs[1..] + ys;
      SumsAppend(xs[1..], ys, sha);
      PlusAssociates(One(xs[0], sha), SumsOf(xs[1..], sha), SumsOf(ys, sha));
    }
  }

  lemma {:induction false} AllFilesStep(es: seq<Entry>)
    requires es != []
    ensures AllFiles(es) <==> es[0].node.File? && AllFiles(es[1..])
  {
    assert es == [es[0]] + es[1..];
  }

  lemma {:induction false} RecordsStep(es: seq<Entry>, sha: Digest)
    requires es != [] && Rooted(es) && AllFiles(es)
    ensures Rooted(es[1..]) && AllFiles(es[1..])
    ensures multiset(Records(es, sha)) == multiset{RecordOf(es[0], sha)} + multiset(Records(es[1..], sha))
  {
  }

  /** The sums say whether a tree can be scanned, and with which records. */
  lemma {:induction false} SumsMeaning(es: seq<Entry>, sha: Digest)
    requires Rooted(es)
    ensures SumsOf(es, sha).count == |es| && SumsOf(es, sha).total == Total(es)
    ensures SumsOf(es, sha).regular <==> AllFiles(es)
    ensures AllFiles(es) ==> SumsOf(es, sha).records == multiset(Records(es, sha))
  {
    if es != [] {
      SumsMeaning(es[1..], sha);
      AllFilesStep(es);
      if AllFiles(es) {
        RecordsStep(es, sha);
      }
    }
  }

  // ---- the loop over one directory ------------------------------------------------------------------

  function Held(scanned: Scanned): Sums {
    Sums(|scanned.files|, scanned.total, true, multiset(scanned.files))
  }

  /** What is held and what is still to come make up the whole. */
  ghost predicate Accounts(whole: Sums, scanned: Scanned, coming: Sums) {
    && whole == Plus(Held(scanned), coming)
    && |scanned.files| <= MAX_FILES && scanned.total <= MAX_BYTES
  }

  predicate WithinLimits(whole: Sums) {
    whole.regular && 1 <= whole.count <= MAX_FILES && whole.total <= MAX_BYTES
  }

  function Next(dir: Entry, k: nat): (e: Entry)
    requires dir.node.Dir? && k < |dir.node.children|
    ensures |e.path| >= 1 && e.node == dir.node.children[k].node
  {
    Here(dir.path, dir.node.children[k])
  }

  /** The leaves below the children from the k-th on. */
  function From(dir: Entry, k: nat, sha: Digest): Sums
    requires dir.node.Dir? && k <= |dir.node.children|
  {
    LeavesAreRooted(dir.path, dir.node.children[k..]);
    SumsOf(Leaves(dir.path, dir.node.children[k..]), sha)
  }

  function Below(e: Entry, sha: Digest): Sums
    requires |e.path| >= 1
  {
    if e.node.Dir? then From(e, 0, sha) else One(e, sha)
  }

  lemma {:induction false} FromStep(dir: Entry, k: nat, sha: Digest)
    requires dir.node.Dir? && k < |dir.node.children|
    ensures From(dir, k, sha) == Plus(Below(Next(dir, k), sha), From(dir, k + 1, sha))
  {
    var children, e := dir.node.children, Next(dir, k);
    assert children[k..][1..] == children[k + 1..];
    LeavesAreRooted(dir.path, children[k + 1..]);
    if e.node.Dir? {
      LeavesAreRooted(e.path, e.node.children);
      assert e.node.children[0..] == e.node.children;
    } else {
      assert [e][1..] == [];
    }
    SumsAppend(LeavesOf(e), Leaves(dir.path, children[k + 1..]), sha);
  }

  /** The leaves below the directories on the stack. */
  function Waiting(stack: seq<Entry>, sha: Digest): Sums
    requires Directories(stack)
  {
    if stack == [] then Nothing()
    else Plus(From(stack[|stack| - 1], 0, sha), Waiting(stack[..|stack| - 1], sha))
  }

  ghost predicate Directories(stack: seq<Entry>) {
    forall i :: 0 <= i < |stack| ==> stack[i].node.Dir?
  }

  lemma {:induction false} PushWaits(stack: seq<Entry>, e: Entry, sha: Digest)
    requires Directories(stack) && e.node.Dir?
    ensures Directories(stack + [e]) && Waiting(stack + [e], sha) == Plus(From(e, 0, sha), Waiting(stack, sha))
  {
    assert (stack + [e])[..|stack|] == stack;
  }

  /** A visited leaf goes from what is to come to what is held; one the scan stops at breaks a limit. */
  lemma {:induction false} VisitAccounts(whole: Sums, scanned: Scanned, e: Entry, later: Sums, sha: Digest)
    requires |e.path| >= 1 && Accounts(whole, scanned, Plus(One(e, sha), later))
    ensures var next := Visit(scanned, e, sha);
            if next.Ok? then Accounts(whole, next.value, later) else !WithinLimits(whole)
  {
  }

  /** The state of the loop at the k-th child of a directory. */
  ghost predicate Scanning(whole: Sums, dir: Entry, k: nat, scanned: Scanned, stack: seq<Entry>, sha: Digest) {
    && dir.node.Dir? && k <= |dir.node.children| && Directories(stack)
    && Accounts(whole, scanned, Plus(From(dir, k, sha), Waiting(stack, sha)))
  }

  lemma {:induction false} PushStep(whole: Sums, dir: Entry, k: nat, scanned: Scanned, stack: seq<Entry>, sha: Digest)
    requires Scanning(whole, dir, k, scanned, stack, sha) && k < |dir.node.children| && Next(dir, k).node.Dir?
    ensures Scanning(whole, dir, k + 1, scanned, stack + [Next(dir, k)], sha)
    ensures Weight(stack + [Next(dir, k)]) == Weight(stack) + Size(Next(dir, k).node)
  {
    var e := Next(dir, k);
    FromStep(dir, k, sha);
    PushWaits(stack, e, sha);
    PushOne(stack, e);
    PlusAssociates(From(e, 0, sha), From(dir, k + 1, sha), Waiting(stack, sha));
  }

  lemma {:induction false} VisitStep(whole: Sums, dir: Entry, k: nat, scanned: Scanned, stack: seq<Entry>, sha: Digest)
    requires Scanning(whole, dir, k, scanned, stack, sha) && k < |dir.node.children| && !Next(dir, k).node.Dir?
    ensures var next := Visit(scanned, Next(dir, k), sha);
            if next.Ok? then Scanning(whole, dir, k + 1, next.value, stack, sha) else !WithinLimits(whole)
  {
    var e := Next(dir, k);
    FromStep(dir, k, sha);
    PlusAssociates(One(e, sha), From(dir, k + 1, sha), Waiting(stack, sha));
    VisitAccounts(whole, scanned, e, Plus(From(dir, k + 1, sha), Waiting(stack, sha)), sha);
  }

  lemma {:induction false} DirectoryDone(whole: Sums, dir: Entry, scanned: Scanned, stack: seq<Entry>, sha: Digest)
    requires dir.node.Dir? && Scanning(whole, dir, |dir.node.children|, scanned, stack, sha)
    ensures Waits(whole, scanned, stack, sha)
  {
    var children := dir.node.children;
    assert children[|children|..] == [];
    PlusNothing(Waiting(stack, sha));
  }

  /** The state between two directories. */
  ghost predicate Waits(whole: Sums, scanned: Scanned, stack: seq<Entry>, sha: Digest) {
    Directories(stack) && Accounts(whole, scanned, Waiting(stack, sha))
  }

  /** One directory: its files are recorded, its subdirectories pushed. */
  method ScanDirectory(dir: Entry, scanned: Scanned, stack: seq<Entry>, sha: Digest, ghost whole: Sums)
    returns (outcome: Result<(Scanned, seq<Entry>), Error>)
    requires dir.node.Dir? && Scanning(whole, dir, 0, scanned, stack, sha)
    ensures outcome.Ok? ==> Waits(whole, outcome.value.0, outcome.value.1, sha)
    ensures outcome.Ok? ==> Weight(outcome.value.1) < Weight(stack) + Size(dir.node)
    ensures outcome.Err? ==> !WithinLimits(whole)
  {
    var children := dir.node.children;
    var found, pushed := scanned, stack;
    assert children[0..] == children;
    for k := 0 to |children|
      invariant Scanning(whole, dir, k, found, pushed, sha)
      invariant Weight(pushed) + Sizes(children[k..]) <= Weight(stack) + Sizes(children)
    {
      var e := Next(dir, k);
      SizesStep(children, k);
      if e.node.Dir? {
        PushStep(whole, dir, k, found, pushed, sha);
        pushed := pushed + [e];
        continue;
      }
      VisitStep(whole, dir, k, found, pushed, sha);
      var next := RecordFile(found, e, sha);
      if next.Err? {
        return Err(next.error);
      }
      found := next.value;
    }
    DirectoryDone(whole, dir, found, pushed, sha);
    outcome := Ok((found, pushed));
  }

  lemma {:induction false} SizesStep(children: seq<Child>, k: nat)
    requires k < |children|
    ensures Sizes(children[k..]) == Size(children[k].node) + Sizes(children[k + 1..])
  {
    assert children[k..][1..] == children[k + 1..];
  }

  // ---- sorting by path ------------------------------------------------------------------------------

  function InsertRecord(r: Record, rs: seq<Record>): seq<Record> {
    if rs == [] || !Less(rs[0].path, r.path) then [r] + rs else [rs[0]] + InsertRecord(r, rs[1..])
  }

  /** `files.sort(key=lambda item: item.path)`. */
  function SortRecords(rs: seq<Record>): seq<Record> {
    if rs == [] then [] else InsertRecord(rs[0], SortRecords(rs[1..]))
  }

  lemma {:induction false} InsertKeeps(r: Record, rs: seq<Record>)
    ensures multiset(InsertRecord(r, rs)) == multiset(rs) + multiset{r}
  {
    if rs != [] && Less(rs[0].path, r.path) {
      InsertKeeps(r, rs[1..]);
      assert rs == [rs[0]] + rs[1..];
    }
  }

  lemma {:induction false} SortKeeps(rs: seq<Record>)
    ensures multiset(SortRecords(rs)) == multiset(rs)
  {
    if rs != [] {
      SortKeeps(rs[1..]);
      InsertKeeps(rs[0], SortRecords(rs[1..]));
      assert rs == [rs[0]] + rs[1..];
    }
  }

  ghost predicate StrictlySorted(rs: seq<Record>) {
    forall i, j :: 0 <= i < j < |rs| ==> Less(rs[i].path, rs[j].path)
  }

  ghost predicate DistinctPaths(rs: seq<Record>) {
    forall i, j :: 0 <= i < j < |rs| ==> rs[i].path != rs[j].path
  }

  lemma {:induction false} InsertSorts(r: Record, rs: seq<Record>)
    requires StrictlySorted(rs) && forall i :: 0 <= i < |rs| ==> rs[i].path != r.path
    ensures StrictlySorted(InsertRecord(r, rs))
  {
    if rs != [] {
      StrictlyLess(r.path, rs[0].path);
      if Less(rs[0].path, r.path) {
        var inserted := InsertRecord(r, rs[1..]);
        InsertSorts(r, rs[1..]);
        InsertKeeps(r, rs[1..]);
        forall j | 0 <= j < |inserted| ensures Less(rs[0].path, inserted[j].path) {
          assert inserted[j] in multiset(inserted);
          assert inserted[j] == r || inserted[j] in rs[1..];
        }
      } else {
        forall j | 0 < j < |rs| ensures Less(r.path, rs[j].path) {
          LessTransitive(r.path, rs[0].path, rs[j].path);
        }
      }
    }
  }

  lemma {:induction false} SortSorts(rs: seq<Record>)
    requires DistinctPaths(rs)
    ensures StrictlySorted(SortRecords(rs))
  {
    if rs != [] {
      var sorted := SortRecords(rs[1..]);
      SortSorts(rs[1..]);
      SortKeeps(rs[1..]);
      forall i | 0 <= i < |sorted| ensures sorted[i].path != rs[0].path {
        assert sorted[i] in multiset(rs[1..]);
      }
      InsertSorts(rs[0], sorted);
    }
  }

  lemma {:induction false} SortedHead(a: seq<Record>, b: seq<Record>)
    requires StrictlySorted(a) && StrictlySorted(b) && a != [] && b != [] && a[0] in b && b[0] in a
    ensures a[0] == b[0]
  {
    var i :| 0 <= i < |b| && b[i] == a[0];
    var j :| 0 <= j < |a| && a[j] == b[0];
    StrictlyLess(a[0].path, b[0].path);
  }

  /** There is one sorted arrangement of the same records. */
  lemma {:induction false} SortedIsUnique(a: seq<Record>, b: seq<Record>)
    requires StrictlySorted(a) && StrictlySorted(b) && multiset(a) == multiset(b)
    ensures a == b
    decreases |a|
  {
    if a == [] {
      assert |multiset(b)| == 0;
    } else {
      SameHeadMembers(a, b);
      SortedHead(a, b);
      SameHeadSameRest(a, b);
      SortedIsUnique(a[1..], b[1..]);
      assert a == [a[0]] + a[1..] && b == [b[0]] + b[1..];
    }
  }

  // ---- the whole scan -------------------------------------------------------------------------------

  /** The files of a scannable tree, sorted by joined path. */
  ghost predicate IsSortedScan(children: seq<Child>, sha: Digest, scanned: Scanned) {
    var es := Leaves([], children);
    && Rooted(es) && AllFiles(es) && scanned.total == Total(es)
    && multiset(scanned.files) == multiset(Records(es, sha)) && StrictlySorted(scanned.files)
  }

  lemma {:induction false} RecordsAreApart(children: seq<Child>, sha: Digest)
    requires WellFormed(children) && Rooted(Leaves([], children)) && AllFiles(Leaves([], children))
    ensures DistinctPaths(Records(Leaves([], children), sha))
  {
    var es := Leaves([], children);
    LeavesAreApart([], children);
    forall i, j | 0 <= i < j < |es| ensures Join(es[i].path) != Join(es[j].path) {
      assert Apart(es[i], es[j]);
    }
  }

  lemma {:induction false} PathsStayDistinct(xs: seq<Record>, ys: seq<Record>)
    requires DistinctPaths(xs) && multiset(xs) == multiset(ys)
    ensures DistinctPaths(ys)
  {
    assert Distinct(xs);
    PermutationStaysDistinct(xs, ys);
    forall i, j | 0 <= i < j < |ys| ensures ys[i].path != ys[j].path {
      assert ys[i] in multiset(xs) && ys[j] in multiset(xs);
      var k :| 0 <= k < |xs| && xs[k] == ys[i];
      var m :| 0 <= m < |xs| && xs[m] == ys[j];
    }
  }

  function Whole(children: seq<Child>, sha: Digest): Sums {
    LeavesAreRooted([], children);
    SumsOf(Leaves([], children), sha)
  }

  lemma {:induction false} WholeWithinLimits(children: seq<Child>, sha: Digest)
    ensures Scannable(Leaves([], children)) <==> WithinLimits(Whole(children, sha))
  {
    LeavesAreRooted([], children);
    SumsMeaning(Leaves([], children), sha);
  }

  /** Once nothing is waiting, what is held is the whole tree. */
  lemma {:induction false} SortedScan(children: seq<Child>, sha: Digest, scanned: Scanned)
    requires WellFormed(children) && Accounts(Whole(children, sha), scanned, Nothing())
    ensures IsSortedScan(children, sha, Scanned(SortRecords(scanned.files), scanned.total))
    ensures Scannable(Leaves([], children)) <==> scanned.files != []
  {
    var es := Leaves([], children);
    LeavesAreRooted([], children);
    SumsMeaning(es, sha);
    RecordsAreApart(children, sha);
    PathsStayDistinct(Records(es, sha), scanned.files);
    SortKeeps(scanned.files);
    SortSorts(scanned.files);
  }

  /** A tree without files is refused, any other has its files sorted. */
  function SortFound(found: Scanned): Result<Scanned, Error> {
    if found.files == [] then Err(NoFiles) else Ok(Scanned(SortRecords(found.files), found.total))
  }

  ghost predicate ScanResult(children: seq<Child>, sha: Digest, outcome: Result<Scanned, Error>) {
    && (outcome.Ok? <==> Scannable(Leaves([], children)))
    && (outcome.Ok? ==> IsSortedScan(children, sha, outcome.value))
  }

  lemma {:induction false} SortedIsResult(children: seq<Child>, sha: Digest, found: Scanned)
    requires IsSortedScan(children, sha, Scanned(SortRecords(found.files), found.total))
    requires Scannable(Leaves([], children)) <==> found.files != []
    ensures ScanResult(children, sha, SortFound(found))
  {
  }

  lemma {:induction false} FoundScan(children: seq<Child>, sha: Digest, found: Scanned)
    requires WellFormed(children) && Accounts(Whole(children, sha), found, Nothing())
    ensures ScanResult(children, sha, SortFound(found))
  {
    SortedScan(children, sha, found);
    SortedIsResult(children, sha, found);
  }

  lemma {:induction false} PopWaits(whole: Sums, scanned: Scanned, stack: seq<Entry>, sha: Digest)
    requires stack != [] && Waits(whole, scanned, stack, sha)
    ensures Scanning(whole, stack[|stack| - 1], 0, scanned, stack[..|stack| - 1], sha)
  {
  }

  lemma {:induction false} RootWaits(meta: Meta, children: seq<Child>, sha: Digest)
    ensures Waits(Whole(children, sha), Scanned([], 0), [Entry([], Dir(meta, children))], sha)
  {
    var root := Entry([], Dir(meta, children));
    assert children[0..] == children && [root][..0] == [];
  }

  /** `_scan_materialized_environment` of a quiet tree. */
  method ScanMaterialized(meta: Meta, children: seq<Child>, sha: Digest) returns (outcome: Result<Scanned, Error>)
    requires WellFormed(children)
    ensures outcome.Ok? <==> Scannable(Leaves([], children))
    ensures outcome.Ok? ==> IsSortedScan(children, sha, outcome.value)
  {
    var found := ScanTree(meta, children, sha);
    if found.Err? {
      return found;
    }
    FoundScan(children, sha, found.value);
    outcome := SortFound(found.value);
  }

  method ScanTree(meta: Meta, children: seq<Child>, sha: Digest) returns (found: Result<Scanned, Error>)
    ensures found.Ok? ==> Accounts(Whole(children, sha), found.value, Nothing())
    ensures found.Err? ==> !Scannable(Leaves([], children))
  {
    RootWaits(meta, children, sha);
    WholeWithinLimits(children, sha);
    found := ScanFrom(Entry([], Dir(meta, children)), sha, Whole(children, sha));
  }

  /** Its loop over the stack. */
  method ScanFrom(root: Entry, sha: Digest, ghost whole: Sums) returns (outcome: Result<Scanned, Error>)
    requires Waits(whole, Scanned([], 0), [root], sha)
    ensures outcome.Ok? ==> Accounts(whole, outcome.value, Nothing())
    ensures outcome.Err? ==> !WithinLimits(whole)
  {
    var scanned, stack := Scanned([], 0), [root];
    while stack != []
      invariant Waits(whole, scanned, stack, sha)
      decreases Weight(stack)
    {
      PopWaits(whole, scanned, stack, sha);
      var next := ScanDirectory(stack[|stack| - 1], scanned, stack[..|stack| - 1], sha, whole);
      if next.Err? {
        return Err(next.error);
      }
      scanned, stack := next.value.0, next.value.1;
    }
    outcome := Ok(scanned);
  }

  /** Both scans of one tree agree up to order, and entirely on a tree that can be sealed. */
  lemma {:induction false} ScansAgree(children: seq<Child>, sha: Digest, materialized: Scanned)
    requires WellFormed(children) && Scannable(Leaves([], children)) && IsSortedScan(children, sha, materialized)
    ensures Walk(children, sha).Ok?
    ensures multiset(Walk(children, sha).value.files) == multiset(materialized.files)
    ensures Walk(children, sha).value.total == materialized.total
    ensures Walk(children, sha).value == materialized <==> Tidy(children)
  {
    ScanSucceedsIff(children, sha);
    AscendingIffTidy([], children);
    var es := Leaves([], children);
    SortedIffAscending(es, sha);
    var rs := Records(es, sha);
    if Tidy(children) {
      forall i, j | 0 <= i < j < |rs| ensures Less(rs[i].path, rs[j].path) {
        assert Before(es[i], es[j]);
      }
      SortedIsUnique(rs, materialized.files);
    }
    if rs == materialized.files {
      forall i, j | 0 <= i < j < |es| ensures Before(es[i], es[j]) {
        assert Less(rs[i].path, rs[j].path);
      }
    }
  }
}
