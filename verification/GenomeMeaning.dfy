/**
 * What the patches of genome.py promise, in terms of the capsule's own fields: which capsules a patch
 * is carried out in, when it fails, and what it leaves alone.
 */
module GenomeMeaning {
  import opened Prelude
  import opened Models
  import opened GenomePatches
  import opened GenomeFields

  // ---- a patch carried out --------------------------------------------------------------------------

  /** The first check with this id, which is the only one in a valid capsule. */
  predicate FirstWith(commands: seq<CommandCheck>, id: string, at: nat) {
    at < |commands| && commands[at].id == id && forall i :: 0 <= i < at ==> commands[i].id != id
  }

  ghost predicate KnowsCheck(c: Document, id: string) {
    exists i :: 0 <= i < |c.commands| && c.commands[i].id == id
  }

  predicate OfSomeCheck(p: Patch) {
    !p.GoalSet? && !p.NetworkSet? && !p.DefaultTimeoutSet? && !p.MaxOutputSet?
  }

  ghost predicate CheckCarries(p: Patch, c: CommandCheck) {
    match p
    case ArgvSet(_, _, argv) => c.argv == argv
    case CwdSet(_, _, cwd) => c.cwd == cwd
    case EnvSet(_, _, name, value) => name in c.env && c.env[name] == value
    case EnvRemove(_, _, name) => name !in c.env
    case TimeoutSet(_, _, seconds) => c.timeoutSeconds == seconds
    case ExitCodesSet(_, _, codes) => forall code :: code in c.expectedExitCodes <==> code in codes
    case ContinueSet(_, _, flag) => c.continueOnFailure == flag
    case _ => false
  }

  /** The capsule says what the patch demands. */
  ghost predicate Carries(p: Patch, c: Document) {
    match p
    case GoalSet(_, goal) => c.goal == goal
    case NetworkSet(_, network) => c.network == network
    case DefaultTimeoutSet(_, seconds) => c.defaultTimeoutSeconds == seconds
    case MaxOutputSet(_, chars) => c.maxOutputChars == chars
    case _ => exists at: nat :: FirstWith(c.commands, p.checkId, at) && CheckCarries(p, c.commands[at])
  }

  lemma {:induction false} FindIsFirst(commands: seq<CommandCheck>, id: string, at: nat)
    ensures FirstWith(commands, id, at) <==> at < |commands| && at == FindCheck(commands, id)
  {
  }

  lemma {:induction false} ElementsAre(codes: seq<int>, expected: set<int>)
    ensures expected == (set i | 0 <= i < |codes| :: codes[i]) <==> forall code :: code in expected <==> code in codes
  {
    var elements := set i | 0 <= i < |codes| :: codes[i];
    forall code ensures code in elements <==> code in codes {
      if code in codes {
        var i :| 0 <= i < |codes| && codes[i] == code;
        assert codes[i] in elements;
      }
    }
    if forall code :: code in expected <==> code in codes {
      assert expected == elements;
    }
  }

  lemma {:induction false} CheckCarriesIff(p: Patch, c: CommandCheck)
    requires OfSomeCheck(p)
    ensures TargetOf(p).OfCheck? && TargetOf(p).checkId == p.checkId
    ensures CheckCarries(p, c) <==> ReadField(c, TargetOf(p).field) == NewValue(p)
  {
    if p.ExitCodesSet? {
      ElementsAre(p.codes, c.expectedExitCodes);
    }
  }

  /** Being carried out is having the new value at the target. */
  lemma {:induction false} CarriesIff(p: Patch, c: Document)
    ensures Carries(p, c) <==> Read(c, TargetOf(p)) == Some(NewValue(p))
  {
    if OfSomeCheck(p) {
      var at := FindCheck(c.commands, p.checkId);
      forall i: nat ensures FirstWith(c.commands, p.checkId, i) <==> i < |c.commands| && i == at {
        FindIsFirst(c.commands, p.checkId, i);
      }
      if at < |c.commands| {
        CheckCarriesIff(p, c.commands[at]);
      }
    }
  }

  lemma {:induction false} KnownIff(p: Patch, c: Document)
    ensures Read(c, TargetOf(p)).Some? <==> (OfSomeCheck(p) ==> KnowsCheck(c, p.checkId))
  {
    if OfSomeCheck(p) {
      assert TargetOf(p).OfCheck? && TargetOf(p).checkId == p.checkId;
    }
  }

  // ---- what one patch does --------------------------------------------------------------------------

  /** Why a patch cannot be applied to a capsule, if it cannot. */
  ghost predicate Refuses(c: Document, p: Patch, error: Error) {
    match error
    case UnknownCheck => OfSomeCheck(p) && !KnowsCheck(c, p.checkId)
    case MissingVariable => p.EnvRemove? && KnowsCheck(c, p.checkId) && Carries(p, c)
    case NoOp => !p.EnvRemove? && Carries(p, c)
  }

  /** A patch succeeds unless its check is unknown or it is carried out already, and then it is. */
  lemma {:induction false} OnePatch(c: Document, p: Patch)
    ensures Apply(c, p).Ok? ==> !Carries(p, c) && Carries(p, Apply(c, p).value)
    ensures forall error :: Apply(c, p) == Err(error) <==> Refuses(c, p, error)
  {
    CarriesIff(p, c);
    KnownIff(p, c);
    if Apply(c, p).Ok? {
      NewValueFits(p);
      WriteLaws(c, TargetOf(p), NewValue(p), TargetOf(p));
      CarriesIff(p, Apply(c, p).value);
    }
  }

  // ---- what all patches do --------------------------------------------------------------------------

  /** Every patch of a list that succeeds is carried out in the end. */
  lemma {:induction false} AllCarried(c: Document, patches: seq<Patch>, i: nat)
    requires DistinctTargets(patches) && ApplyAll(c, patches).Ok? && i < |patches|
    ensures Carries(patches[i], ApplyAll(c, patches).value)
  {
    var result := ApplyAll(c, patches).value;
    PatchedReads(c, patches, TargetOf(patches[i]));
    ReadsTheOnePatch(c, patches, result, patches[i]);
    CarriesIff(patches[i], result);
  }

  ghost predicate Welcomes(c: Document, p: Patch) {
    (OfSomeCheck(p) ==> KnowsCheck(c, p.checkId)) && !Carries(p, c)
  }

  lemma {:induction false} WelcomesIffApplicable(c: Document, p: Patch)
    ensures Welcomes(c, p) <==> Applicable(c, p)
  {
    CarriesIff(p, c);
    KnownIff(p, c);
  }

  /** The list succeeds exactly when the base knows every check and carries none of the patches yet. */
  lemma {:induction false} AllSucceedIff(c: Document, patches: seq<Patch>)
    requires DistinctTargets(patches)
    ensures ApplyAll(c, patches).Ok? <==> forall i :: 0 <= i < |patches| ==> Welcomes(c, patches[i])
  {
    SucceedsIffEachApplicable(c, patches);
    forall i | 0 <= i < |patches| ensures Welcomes(c, patches[i]) <==> Applicable(c, patches[i]) {
      WelcomesIffApplicable(c, patches[i]);
    }
  }

  // ---- what no patch does ---------------------------------------------------------------------------

  ghost predicate SomePatch(patches: seq<Patch>, kind: Patch -> bool) {
    exists p :: p in patches && kind(p)
  }

  function SetsArgv(id: string): Patch -> bool {
    (p: Patch) => p.ArgvSet? && p.checkId == id
  }

  function SetsCwd(id: string): Patch -> bool {
    (p: Patch) => p.CwdSet? && p.checkId == id
  }

  function SetsTimeout(id: string): Patch -> bool {
    (p: Patch) => p.TimeoutSet? && p.checkId == id
  }

  function SetsExitCodes(id: string): Patch -> bool {
    (p: Patch) => p.ExitCodesSet? && p.checkId == id
  }

  function SetsContinue(id: string): Patch -> bool {
    (p: Patch) => p.ContinueSet? && p.checkId == id
  }

  function SetsOrRemoves(id: string, name: string): Patch -> bool {
    (p: Patch) => (p.EnvSet? || p.EnvRemove?) && p.checkId == id && p.name == name
  }

  /** Where the two capsules differ in a field, some patch was about that field. */
  ghost predicate OnlyPatched(base: Document, patches: seq<Patch>, result: Document) {
    && result.id == base.id && result.maxCommands == base.maxCommands && result.fixed == base.fixed
    && (result.goal != base.goal ==> SomePatch(patches, (p: Patch) => p.GoalSet?))
    && (result.network != base.network ==> SomePatch(patches, (p: Patch) => p.NetworkSet?))
    && (result.defaultTimeoutSeconds != base.defaultTimeoutSeconds ==>
          SomePatch(patches, (p: Patch) => p.DefaultTimeoutSet?))
    && (result.maxOutputChars != base.maxOutputChars ==> SomePatch(patches, (p: Patch) => p.MaxOutputSet?))
    && |result.commands| == |base.commands|
    && forall k :: 0 <= k < |base.commands| ==> OnlyPatchedCheck(base.commands[k], patches, result.commands[k])
  }

  ghost predicate OnlyPatchedCheck(a: CommandCheck, patches: seq<Patch>, b: CommandCheck) {
    && b.id == a.id
    && (b.argv != a.argv ==> SomePatch(patches, SetsArgv(a.id)))
    && (b.cwd != a.cwd ==> SomePatch(patches, SetsCwd(a.id)))
    && (b.timeoutSeconds != a.timeoutSeconds ==> SomePatch(patches, SetsTimeout(a.id)))
    && (b.expectedExitCodes != a.expectedExitCodes ==> SomePatch(patches, SetsExitCodes(a.id)))
    && (b.continueOnFailure != a.continueOnFailure ==> SomePatch(patches, SetsContinue(a.id)))
    && forall name :: Binding(a, name) != Binding(b, name) ==> SomePatch(patches, SetsOrRemoves(a.id, name))
  }

  function Binding(c: CommandCheck, name: string): Option<string> {
    if name in c.env then Some(c.env[name]) else None
  }

  /** Some patch targets what reads differently afterwards. */
  lemma {:induction false} ChangedBy(c: Document, patches: seq<Patch>, t: Target) returns (p: Patch)
    requires DistinctTargets(patches) && ApplyAll(c, patches).Ok?
    requires Read(ApplyAll(c, patches).value, t) != Read(c, t)
    ensures p in patches && TargetOf(p) == t
  {
    PatchedReads(c, patches, t);
    p := DeclaredMember(patches, t);
  }

  lemma {:induction false} FoundInPlace(c: Document, k: nat)
    requires DistinctIds(c) && k < |c.commands|
    ensures FindCheck(c.commands, c.commands[k].id) == k
  {
    FindIsFirst(c.commands, c.commands[k].id, k);
  }

  lemma {:induction false} FieldChangedBy(
    c: Document, patches: seq<Patch>, result: Document, k: nat, f: Field) returns (p: Patch)
    requires DistinctTargets(patches) && ApplyAll(c, patches) == Ok(result) && SameShape(c, result)
    requires DistinctIds(c) && k < |c.commands| && ReadField(result.commands[k], f) != ReadField(c.commands[k], f)
    ensures p in patches && TargetOf(p) == OfCheck(c.commands[k].id, f)
  {
    FoundInPlace(c, k);
    FoundInPlace(result, k);
    p := ChangedBy(c, patches, OfCheck(c.commands[k].id, f));
  }

  /** Only patches of this kind target this field. */
  ghost predicate Only(t: Target, kind: Patch -> bool) {
    forall p :: TargetOf(p) == t ==> kind(p)
  }

  lemma {:induction false} CheckKinds(id: string)
    ensures Only(OfCheck(id, Argv), SetsArgv(id)) && Only(OfCheck(id, Cwd), SetsCwd(id))
    ensures Only(OfCheck(id, Timeout), SetsTimeout(id)) && Only(OfCheck(id, ExitCodes), SetsExitCodes(id))
    ensures Only(OfCheck(id, ContinueOnFailure), SetsContinue(id))
  {
  }

  lemma {:induction false} VariableKind(id: string, name: string)
    ensures Only(OfCheck(id, EnvVar(name)), SetsOrRemoves(id, name))
  {
  }

  /** A patch of this kind is behind the change of a field that only such patches target. */
  lemma {:induction false} FieldChange(
    c: Document, patches: seq<Patch>, result: Document, k: nat, f: Field, kind: Patch -> bool)
    requires DistinctTargets(patches) && ApplyAll(c, patches) == Ok(result) && SameShape(c, result)
    requires DistinctIds(c) && k < |c.commands|
    requires Only(OfCheck(c.commands[k].id, f), kind)
    ensures ReadField(result.commands[k], f) != ReadField(c.commands[k], f) ==> SomePatch(patches, kind)
  {
    if ReadField(result.commands[k], f) != ReadField(c.commands[k], f) {
      var p := FieldChangedBy(c, patches, result, k, f);
      assert kind(p);
    }
  }

  lemma {:induction false} CheckOnlyPatched(c: Document, patches: seq<Patch>, result: Document, k: nat)
    requires DistinctTargets(patches) && ApplyAll(c, patches) == Ok(result) && SameShape(c, result)
    requires DistinctIds(c) && k < |c.commands|
    ensures OnlyPatchedCheck(c.commands[k], patches, result.commands[k])
  {
    var a, b := c.commands[k], result.commands[k];
    CheckKinds(a.id);
    FieldChange(c, patches, result, k, Argv, SetsArgv(a.id));
    FieldChange(c, patches, result, k, Cwd, SetsCwd(a.id));
    FieldChange(c, patches, result, k, Timeout, SetsTimeout(a.id));
    FieldChange(c, patches, result, k, ExitCodes, SetsExitCodes(a.id));
    FieldChange(c, patches, result, k, ContinueOnFailure, SetsContinue(a.id));
    forall name | Binding(a, name) != Binding(b, name) ensures SomePatch(patches, SetsOrRemoves(a.id, name)) {
      VariableKind(a.id, name);
      FieldChange(c, patches, result, k, EnvVar(name), SetsOrRemoves(a.id, name));
    }
  }

  lemma {:induction false} CapsuleChange(
    c: Document, patches: seq<Patch>, result: Document, t: Target, kind: Patch -> bool)
    requires DistinctTargets(patches) && ApplyAll(c, patches) == Ok(result)
    requires Only(t, kind)
    ensures Read(result, t) != Read(c, t) ==> SomePatch(patches, kind)
  {
    if Read(result, t) != Read(c, t) {
      var p := ChangedBy(c, patches, t);
      assert kind(p);
    }
  }

  /** Nothing changes but what a patch is about. */
  lemma {:induction false} NothingElseChanges(c: Document, patches: seq<Patch>, result: Document)
    requires DistinctTargets(patches) && DistinctIds(c) && ApplyAll(c, patches) == Ok(result)
    ensures OnlyPatched(c, patches, result)
  {
    PatchedReads(c, patches, Goal);
    CapsuleChange(c, patches, result, Goal, (p: Patch) => p.GoalSet?);
    CapsuleChange(c, patches, result, NetworkAccess, (p: Patch) => p.NetworkSet?);
    CapsuleChange(c, patches, result, DefaultTimeout, (p: Patch) => p.DefaultTimeoutSet?);
    CapsuleChange(c, patches, result, MaxOutput, (p: Patch) => p.MaxOutputSet?);
    forall k | 0 <= k < |c.commands| ensures OnlyPatchedCheck(c.commands[k], patches, result.commands[k]) {
      CheckOnlyPatched(c, patches, result, k);
    }
  }
}
