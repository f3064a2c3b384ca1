/**
 * Atomic publication of a text file, step by step, as atomic_write.py does it through a directory
 * descriptor. Other processes may act on the directory between any two steps.
 */
module AtomicWrite {
  import opened Prelude

  type Name = string

  type Inode = nat

  datatype Node = Regular(bytes: string) | Special

  /** The bound parent directory, the inodes, and whether the requested path still leads to that directory. */
  datatype Fs = Fs(entries: map<Name, Inode>, nodes: map<Inode, Node>, pathIsStable: bool)

  datatype Pc =
    | CheckOpened
    | Create(tries: nat)
    | Identify
    | Write(written: nat)
    | CheckTemporary
    | CheckParent
    | Rename
    | CheckOutput
    | CheckParentAgain
    | List
    | Examine(todo: seq<Name>)
    | Unlink(todo: seq<Name>)
    | Returned
    | Raised

  /** The name and inode of the temporary once it is created. */
  datatype Temporary = Temporary(name: Name, inode: Inode)

  /**
   * `identity` is the variable `temporary_identity`. `published` is history: what the temporary held
   * when it was renamed to the output.
   */
  datatype State = State(
    fs: Fs, pc: Pc, temporary: Option<Temporary>, identity: Option<Inode>, published: Option<string>)

  datatype Job = Job(output: Name, payload: string)

  const MAX_TRIES: nat := 128

  function TemporaryName(output: Name, token: string): Name {
    "." + output + "." + token + ".tmp"
  }

  // ---- the steps of the writer --------------------------------------------------------------------

  /** An exception reaches the `finally` block: cleanup runs only when the identity was recorded. */
  function Fail(s: State): State {
    s.(pc := if s.identity.Some? then List else Raised)
  }

  predicate Names(fs: Fs, name: Name, inode: Inode) {
    name in fs.entries && fs.entries[name] == inode
  }

  predicate NamesRegular(fs: Fs, name: Name, inode: Inode) {
    Names(fs, name, inode) && inode in fs.nodes && fs.nodes[inode].Regular?
  }

  /** `rename`: two names of one inode stay as they are. */
  function Renamed(fs: Fs, source: Name, target: Name): Fs
    requires source in fs.entries
  {
    if target in fs.entries && fs.entries[target] == fs.entries[source] then fs
    else fs.(entries := (fs.entries - {source})[target := fs.entries[source]])
  }

  /** One attempt of `_create_temporary_at`. */
  ghost predicate CreateStep(job: Job, s: State, t: State) {
    exists token: string, inode: Inode :: CreateWith(job, s, t, token, inode)
  }

  ghost predicate CreateWith(job: Job, s: State, t: State, token: string, inode: Inode) {
    var name := TemporaryName(job.output, token);
    && s.pc.Create? && s.pc.tries < MAX_TRIES
    && if name in s.fs.entries then t == s.(pc := Create(s.pc.tries + 1))
       else
         && inode !in s.fs.nodes && (forall other :: other in s.fs.entries ==> s.fs.entries[other] != inode)
         && t == s.(fs := s.fs.(entries := s.fs.entries[name := inode], nodes := s.fs.nodes[inode := Regular("")]),
                    temporary := Some(Temporary(name, inode)), pc := Identify)
  }

  /** Part of the payload reaches the file; once all of it has, the writer moves on. */
  ghost predicate WriteStep(job: Job, s: State, t: State) {
    && s.pc.Write? && s.temporary.Some? && s.pc.written <= |job.payload|
    && if s.pc.written == |job.payload| then t == s.(pc := CheckTemporary)
       else
         exists more: nat ::
           && s.pc.written < more <= |job.payload|
           && t == s.(fs := s.fs.(nodes := s.fs.nodes[s.temporary.value.inode := Regular(job.payload[..more])]),
                      pc := Write(more))
  }

  ghost predicate RenameStep(job: Job, s: State, t: State) {
    && s.pc == Rename && s.temporary.Some? && s.temporary.value.name in s.fs.entries
    && t == s.(fs := Renamed(s.fs, s.temporary.value.name, job.output), pc := CheckOutput,
               published := Contents(s.fs, s.fs.entries[s.temporary.value.name]))
  }

  function Contents(fs: Fs, inode: Inode): Option<string> {
    if inode in fs.nodes && fs.nodes[inode].Regular? then Some(fs.nodes[inode].bytes) else None
  }

  /** The steps of the body that go as intended, one system call or one check each. */
  ghost predicate BodyStep(job: Job, s: State, t: State) {
    match s.pc
    case CheckOpened => s.fs.pathIsStable && t == s.(pc := Create(0))
    case Create(_) => CreateStep(job, s, t)
    case Identify => s.temporary.Some? && t == s.(identity := Some(s.temporary.value.inode), pc := Write(0))
    case Write(_) => WriteStep(job, s, t)
    case CheckTemporary =>
      && s.temporary.Some? && s.identity.Some?
      && NamesRegular(s.fs, s.temporary.value.name, s.identity.value) && t == s.(pc := CheckParent)
    case CheckParent => s.fs.pathIsStable && t == s.(pc := Rename)
    case Rename => RenameStep(job, s, t)
    case CheckOutput => s.identity.Some? && NamesRegular(s.fs, job.output, s.identity.value)
        && t == s.(pc := CheckParentAgain)
    case CheckParentAgain => s.fs.pathIsStable && t == s.(identity := None, pc := Returned)
    case _ => false
  }

  predicate InBody(pc: Pc) {
    !pc.List? && !pc.Examine? && !pc.Unlink? && !pc.Returned? && !pc.Raised?
  }

  /** `_remove_regular_file_by_identity_at` when its system calls succeed. */
  ghost predicate CleanStep(s: State, t: State) {
    s.identity.Some? &&
    match s.pc
    case List =>
      && t.pc.Examine? && (forall name :: name in s.fs.entries ==> name in t.pc.todo) && t == s.(pc := t.pc)
    case Examine(todo) =>
      t == s.(pc := if todo == [] then Raised
                    else if NamesRegular(s.fs, todo[0], s.identity.value) then Unlink(todo) else Examine(todo[1..]))
    case Unlink(todo) =>
      && todo != [] && todo[0] in s.fs.entries
      && t == s.(fs := s.fs.(entries := s.fs.entries - {todo[0]}), pc := Examine(todo[1..]))
    case _ => false
  }

  /** A failing call during cleanup: listing gives up, one name is skipped. */
  predicate SkipStep(s: State, t: State) {
    || (s.pc == List && t == s.(pc := Raised))
    || ((s.pc.Examine? || s.pc.Unlink?) && s.pc.todo != [] && t == s.(pc := Examine(s.pc.todo[1..])))
  }

  ghost predicate WriterStep(job: Job, s: State, t: State) {
    BodyStep(job, s, t) || (InBody(s.pc) && t == Fail(s)) || CleanStep(s, t) || SkipStep(s, t)
  }

  // ---- the other processes ------------------------------------------------------------------------

  /** The inode has an entry besides the private temporary one. */
  ghost predicate Exposed(fs: Fs, temporary: Temporary) {
    exists name :: name != temporary.name && Names(fs, name, temporary.inode)
  }

  /**
   * Others do anything to the directory and its files, except through the private temporary name:
   * that entry stays as it is, its inode gains no other name while it has none, is not written
   * before it is published, and remains a regular file.
   */
  ghost predicate OthersStep(s: State, t: State) {
    && t == s.(fs := t.fs)
    && (s.temporary.Some? ==> LeavesPrivate(s.fs, t.fs, s.temporary.value, s.published.None?))
  }

  ghost predicate LeavesPrivate(before: Fs, after: Fs, temporary: Temporary, unpublished: bool) {
    && (temporary.name in before.entries <==> temporary.name in after.entries)
    && (temporary.name in before.entries ==> after.entries[temporary.name] == before.entries[temporary.name])
    && (Exposed(after, temporary) ==> Exposed(before, temporary))
    && (temporary.inode in before.nodes && before.nodes[temporary.inode].Regular? ==>
          && temporary.inode in after.nodes && after.nodes[temporary.inode].Regular?
          && (unpublished ==> after.nodes[temporary.inode] == before.nodes[temporary.inode]))
  }

  ghost predicate Next(job: Job, s: State, t: State) {
    WriterStep(job, s, t) || OthersStep(s, t)
  }

  predicate Init(s: State) {
    s.pc == CheckOpened && s.temporary.None? && s.identity.None? && s.published.None?
  }

  ghost predicate Run(job: Job, run: seq<State>) {
    && |run| > 0 && Init(run[0])
    && forall i :: 0 <= i < |run| - 1 ==> Next(job, run[i], run[i + 1])
  }

  // ---- the invariant ------------------------------------------------------------------------------

  /** The phases in which the private entry still names the temporary. */
  predicate Private(pc: Pc) {
    pc.Identify? || pc.Write? || pc.CheckTemporary? || pc.CheckParent? || pc.Rename?
  }

  predicate Renaming(pc: Pc) {
    pc.CheckTemporary? || pc.CheckParent? || pc.Rename?
  }

  predicate AfterRename(pc: Pc) {
    pc.CheckOutput? || pc.CheckParentAgain? || pc.Returned?
  }

  predicate Early(pc: Pc) {
    pc.CheckOpened? || pc.Create?
  }

  ghost predicate Inv(job: Job, s: State) {
    && (s.temporary.None? ==> s.identity.None? && s.published.None? && (Early(s.pc) || s.pc.Raised?))
    && (s.temporary.Some? ==> TemporaryInv(job, s, s.temporary.value))
  }

  /** What holds once the temporary exists. */
  ghost predicate TemporaryInv(job: Job, s: State, temporary: Temporary) {
    && !Early(s.pc) && temporary.name != job.output
    && temporary.inode in s.fs.nodes && s.fs.nodes[temporary.inode].Regular?
    && (s.identity.Some? ==> s.identity.value == temporary.inode)
    && (s.identity.None? <==> s.pc.Identify? || s.pc.Returned? || (s.pc.Raised? && s.identity.None?))
    && (s.pc.Write? ==> s.pc.written <= |job.payload|)
    && (Private(s.pc) ==> s.published.None? && Names(s.fs, temporary.name, temporary.inode))
    && (s.pc.Raised? && s.identity.None? ==> s.published.None? && Names(s.fs, temporary.name, temporary.inode))
    && (s.pc.Identify? ==> s.fs.nodes[temporary.inode] == Regular(""))
    && (s.pc.Write? ==> s.fs.nodes[temporary.inode] == Regular(job.payload[..s.pc.written]))
    && (Renaming(s.pc) ==> s.fs.nodes[temporary.inode] == Regular(job.payload))
    && (AfterRename(s.pc) ==> s.published.Some?)
    && (s.published.Some? ==> s.published == Some(job.payload))
    && (Exposed(s.fs, temporary) ==> s.published.Some?)
  }

  lemma {:induction false} TemporaryIsNotTheOutput(output: Name, token: string)
    ensures TemporaryName(output, token) != output
  {
    assert |TemporaryName(output, token)| > |output|;
  }

  lemma {:induction false} CreateKeepsInv(job: Job, s: State, t: State)
    requires Inv(job, s) && CreateStep(job, s, t)
    ensures Inv(job, t)
  {
    var token, inode :| CreateWith(job, s, t, token, inode);
    TemporaryIsNotTheOutput(job.output, token);
  }

  lemma {:induction false} RenameKeepsInv(job: Job, s: State, t: State)
    requires Inv(job, s) && RenameStep(job, s, t)
    ensures Inv(job, t)
    ensures Names(t.fs, job.output, s.temporary.value.inode) && t.published == Some(job.payload)
  {
    var temporary := s.temporary.value;
    assert Names(s.fs, job.output, temporary.inode) ==> Exposed(s.fs, temporary);
  }

  /** Writing, checking and identifying leave the directory entries alone. */
  lemma {:induction false} SameEntries(job: Job, s: State, t: State)
    requires Inv(job, s) && BodyStep(job, s, t) && !s.pc.Create? && s.pc != Rename
    ensures Inv(job, t)
  {
    assert t.fs.entries == s.fs.entries;
    if s.temporary.Some? {
      var temporary := s.temporary.value;
      if Exposed(t.fs, temporary) {
        var name :| name != temporary.name && Names(t.fs, name, temporary.inode);
        assert Names(s.fs, name, temporary.inode);
      }
      assert job.payload[..|job.payload|] == job.payload;
    }
  }

  lemma {:induction false} CleanupKeepsInv(job: Job, s: State, t: State)
    requires Inv(job, s) && (CleanStep(s, t) || SkipStep(s, t))
    ensures Inv(job, t)
  {
    if s.temporary.Some? {
      var temporary := s.temporary.value;
      if Exposed(t.fs, temporary) {
        var name :| name != temporary.name && Names(t.fs, name, temporary.inode);
        assert Names(s.fs, name, temporary.inode);
      }
    }
  }

  lemma {:induction false} OthersKeepInv(job: Job, s: State, t: State)
    requires Inv(job, s) && OthersStep(s, t)
    ensures Inv(job, t)
  {
  }

  lemma {:induction false} StepKeepsInv(job: Job, s: State, t: State)
    requires Inv(job, s) && Next(job, s, t)
    ensures Inv(job, t)
  {
    if BodyStep(job, s, t) {
      if s.pc.Create? {
        CreateKeepsInv(job, s, t);
      } else if s.pc == Rename {
        RenameKeepsInv(job, s, t);
      } else {
        SameEntries(job, s, t);
      }
    } else if CleanStep(s, t) || SkipStep(s, t) {
      CleanupKeepsInv(job, s, t);
    } else if OthersStep(s, t) {
      OthersKeepInv(job, s, t);
    }
  }

  lemma {:induction false} RunKeepsInv(job: Job, run: seq<State>, i: nat)
    requires Run(job, run) && i < |run|
    ensures Inv(job, run[i])
  {
    if i > 0 {
      RunKeepsInv(job, run, i - 1);
      StepKeepsInv(job, run[i - 1], run[i]);
    }
  }

  // ---- what every interleaving promises -----------------------------------------------------------

  /** The temporary's inode is under the output name only if it was complete when it got there. */
  lemma {:induction false} OutputIsNeverPartial(job: Job, run: seq<State>, i: nat)
    requires Run(job, run) && i < |run| && run[i].temporary.Some?
    requires Names(run[i].fs, job.output, run[i].temporary.value.inode)
    ensures run[i].published == Some(job.payload)
  {
    RunKeepsInv(job, run, i);
    assert Exposed(run[i].fs, run[i].temporary.value);
  }

  /** `published` means what it says: the step that sets it puts the complete file under the output name. */
  lemma {:induction false} PublishingStep(job: Job, run: seq<State>, i: nat)
    requires Run(job, run) && i < |run| - 1 && run[i].published.None? && run[i + 1].published.Some?
    ensures run[i].pc == Rename && run[i].temporary.Some?
    ensures var inode := run[i].temporary.value.inode;
            Names(run[i + 1].fs, job.output, inode) && Contents(run[i + 1].fs, inode) == Some(job.payload)
    ensures run[i].temporary.value.name !in run[i + 1].fs.entries
    ensures forall other :: other != job.output && other != run[i].temporary.value.name ==>
              (other in run[i].fs.entries <==> other in run[i + 1].fs.entries)
              && (other in run[i].fs.entries ==> run[i + 1].fs.entries[other] == run[i].fs.entries[other])
  {
    RunKeepsInv(job, run, i);
    RenameKeepsInv(job, run[i], run[i + 1]);
  }

  /** Before publication nobody can see the file: its one name is the private one. */
  lemma {:induction false} UnpublishedIsPrivate(job: Job, run: seq<State>, i: nat, name: Name)
    requires Run(job, run) && i < |run| && run[i].temporary.Some? && run[i].published.None?
    requires Names(run[i].fs, name, run[i].temporary.value.inode)
    ensures name == run[i].temporary.value.name
  {
    RunKeepsInv(job, run, i);
  }

  /** A normal return passed the check that the output names the written inode. */
  lemma {:induction false} ReturnMeansPublished(job: Job, run: seq<State>, n: nat)
    requires Run(job, run) && n < |run| && (run[n].pc == Returned || run[n].pc == CheckParentAgain)
    ensures exists i :: 0 <= i < n && CheckedOutput(job, run[i], run[i + 1]) && run[i].published == Some(job.payload)
  {
    RunKeepsInv(job, run, n);
    assert n > 0;
    var s, t := run[n - 1], run[n];
    RunKeepsInv(job, run, n - 1);
    assert Next(job, s, t);
    if s.pc == CheckOutput {
      assert CheckedOutput(job, run[n - 1], run[n - 1 + 1]);
    } else {
      assert s.pc == Returned || s.pc == CheckParentAgain;
      ReturnMeansPublished(job, run, n - 1);
    }
  }

  ghost predicate CheckedOutput(job: Job, s: State, t: State) {
    && s.pc == CheckOutput && t.pc == CheckParentAgain && s.temporary.Some?
    && NamesRegular(s.fs, job.output, s.temporary.value.inode)
  }

  // ---- what cleanup leaves behind -----------------------------------------------------------------

  /** From the listing to the end, only cleanup steps that succeed. */
  ghost predicate UndisturbedCleanup(states: seq<State>) {
    && |states| > 0 && states[0].pc == List && states[|states| - 1].pc == Raised
    && forall i :: 0 <= i < |states| - 1 ==> CleanStep(states[i], states[i + 1])
  }

  predicate Remaining(pc: Pc, name: Name) {
    pc == List || ((pc.Examine? || pc.Unlink?) && name in pc.todo)
  }

  /** Every entry naming the inode is still to be examined, and one being unlinked names it. */
  ghost predicate CleanInv(s: State, inode: Inode) {
    && s.identity == Some(inode) && inode in s.fs.nodes && s.fs.nodes[inode].Regular?
    && (forall name :: Names(s.fs, name, inode) ==> Remaining(s.pc, name))
    && (s.pc.Unlink? ==> s.pc.todo != [] && Names(s.fs, s.pc.todo[0], inode))
  }

  lemma {:induction false} CleanStepKeeps(s: State, t: State, inode: Inode)
    requires CleanInv(s, inode) && CleanStep(s, t)
    ensures CleanInv(t, inode)
    ensures forall name :: name in s.fs.entries && s.fs.entries[name] != inode ==> Names(t.fs, name, s.fs.entries[name])
  {
    forall name | Names(t.fs, name, inode) ensures Remaining(t.pc, name) {
      assert Names(s.fs, name, inode);
      if s.pc.Examine? || s.pc.Unlink? {
        assert s.pc.todo == [s.pc.todo[0]] + s.pc.todo[1..];
      }
    }
  }

  lemma {:induction false} CleanupEmpties(states: seq<State>, inode: Inode, i: nat)
    requires UndisturbedCleanup(states) && i < |states| && CleanInv(states[0], inode)
    ensures CleanInv(states[i], inode)
    ensures forall name :: name in states[0].fs.entries && states[0].fs.entries[name] != inode ==>
              Names(states[i].fs, name, states[0].fs.entries[name])
  {
    if i > 0 {
      CleanupEmpties(states, inode, i - 1);
      CleanStepKeeps(states[i - 1], states[i], inode);
    }
  }

  /**
   * An error once the identity is recorded, with cleanup left alone, leaves no entry naming the
   * temporary: a published file is withdrawn too. No other entry is lost.
   */
  lemma {:induction false} ErrorWithdraws(job: Job, run: seq<State>, from: nat, name: Name)
    requires Run(job, run) && from < |run| && UndisturbedCleanup(run[from..])
    ensures run[from].temporary.Some?
    ensures var inode := run[from].temporary.value.inode;
            && !Names(run[|run| - 1].fs, name, inode)
            && (name in run[from].fs.entries && run[from].fs.entries[name] != inode ==>
                  Names(run[|run| - 1].fs, name, run[from].fs.entries[name]))
  {
    RunKeepsInv(job, run, from);
    var inode := run[from].temporary.value.inode;
    assert CleanInv(run[from], inode);
    CleanupEmpties(run[from..], inode, |run| - 1 - from);
  }

  /** No error skips cleanup once the identity is recorded, not even one after publication. */
  lemma {:induction false} ErrorsAreCleanedUp(job: Job, run: seq<State>, i: nat)
    requires Run(job, run) && i < |run| - 1 && InBody(run[i].pc) && run[i].identity.Some?
    ensures !run[i + 1].pc.Raised?
    ensures !InBody(run[i + 1].pc) ==> run[i + 1].pc.List? || run[i + 1].pc.Returned?
  {
    RunKeepsInv(job, run, i);
    assert Next(job, run[i], run[i + 1]);
  }

  /** An error before the identity is recorded leaves the temporary behind, whatever others do. */
  lemma {:induction false} UnrecordedTemporaryStays(job: Job, run: seq<State>)
    requires Run(job, run)
    requires var last := run[|run| - 1]; last.pc == Raised && last.identity.None? && last.temporary.Some?
    ensures var last := run[|run| - 1]; Names(last.fs, last.temporary.value.name, last.temporary.value.inode)
  {
    RunKeepsInv(job, run, |run| - 1);
  }

  /** Such a run exists: reading the identity of the new file fails. */
  lemma {:induction false} UnrecordedTemporaryCanHappen(job: Job) returns (run: seq<State>)
    ensures Run(job, run)
    ensures var last := run[|run| - 1]; last.pc == Raised && last.identity.None? && last.temporary.Some?
  {
    var empty := Fs(map[], map[], true);
    var name := TemporaryName(job.output, "");
    var s0 := State(empty, CheckOpened, None, None, None);
    var s1 := s0.(pc := Create(0));
    var fs2 := Fs(map[name := 0], map[0 := Regular("")], true);
    var s2 := s1.(fs := fs2, temporary := Some(Temporary(name, 0)), pc := Identify);
    var s3 := Fail(s2);
    run := [s0, s1, s2, s3];
    assert CreateWith(job, s1, s2, "", 0);
    assert BodyStep(job, s0, s1) && BodyStep(job, s1, s2) && WriterStep(job, s2, s3);
  }
}
