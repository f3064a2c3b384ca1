/** Patches of genome.py, the fields they target, and the string keys that name those fields. */
module GenomePatches {
  import opened Prelude
  import opened Models

  datatype Patch =
    | GoalSet(id: string, goal: string)
    | NetworkSet(id: string, network: Network)
    | ArgvSet(id: string, checkId: string, argv: seq<string>)
    | CwdSet(id: string, checkId: string, cwd: string)
    | EnvSet(id: string, checkId: string, name: string, value: string)
    | EnvRemove(id: string, checkId: string, name: string)
    | TimeoutSet(id: string, checkId: string, timeout: Option<real>)
    | ExitCodesSet(id: string, checkId: string, codes: seq<int>)
    | ContinueSet(id: string, checkId: string, flag: bool)
    | DefaultTimeoutSet(id: string, seconds: real)
    | MaxOutputSet(id: string, chars: int)

  datatype Field = Argv | Cwd | EnvVar(name: string) | Timeout | ExitCodes | ContinueOnFailure

  datatype Target = Goal | NetworkAccess | OfCheck(checkId: string, field: Field) | DefaultTimeout | MaxOutput

  datatype Value =
    | Text(text: string) | Access(network: Network) | Words(words: seq<string>) | Variable(variable: Option<string>)
    | Seconds(seconds: Option<real>) | Codes(codes: set<int>) | Flag(flag: bool) | Number(number: int)

  /** The field validators of the patch models. */
  predicate ValidPatch(p: Patch) {
    && IsStableId(p.id)
    && match p
       case GoalSet(_, goal) => 1 <= |goal| <= 10_000
       case NetworkSet(_, _) => true
       case ArgvSet(_, checkId, argv) => IsStableId(checkId) && SafeArgv(argv) && |argv| <= 256
       case CwdSet(_, checkId, cwd) => IsStableId(checkId) && SafeRelativePath(cwd)
       case EnvSet(_, checkId, name, value) =>
         IsStableId(checkId) && SafeEnvName(name) && |name| <= 1024 && NUL !in value && |value| <= 65_536
       case EnvRemove(_, checkId, name) => IsStableId(checkId) && SafeEnvName(name) && |name| <= 1024
       case TimeoutSet(_, checkId, seconds) => IsStableId(checkId) && (seconds.Some? ==> SafeTimeout(seconds.value))
       case ExitCodesSet(_, checkId, codes) =>
         && IsStableId(checkId) && 1 <= |codes| <= 256
         && forall i, j :: 0 <= i < j < |codes| ==> codes[i] != codes[j]
       case ContinueSet(_, checkId, _) => IsStableId(checkId)
       case DefaultTimeoutSet(_, seconds) => SafeTimeout(seconds)
       case MaxOutputSet(_, chars) => 256 <= chars <= 5_000_000
  }

  /** The field a patch writes. */
  function TargetOf(p: Patch): Target {
    match p
    case GoalSet(_, _) => Goal
    case NetworkSet(_, _) => NetworkAccess
    case ArgvSet(_, checkId, _) => OfCheck(checkId, Argv)
    case CwdSet(_, checkId, _) => OfCheck(checkId, Cwd)
    case EnvSet(_, checkId, name, _) => OfCheck(checkId, EnvVar(name))
    case EnvRemove(_, checkId, name) => OfCheck(checkId, EnvVar(name))
    case TimeoutSet(_, checkId, _) => OfCheck(checkId, Timeout)
    case ExitCodesSet(_, checkId, _) => OfCheck(checkId, ExitCodes)
    case ContinueSet(_, checkId, _) => OfCheck(checkId, ContinueOnFailure)
    case DefaultTimeoutSet(_, _) => DefaultTimeout
    case MaxOutputSet(_, _) => MaxOutput
  }

  /** The value it writes; removing a variable writes its absence. */
  function NewValue(p: Patch): Value {
    match p
    case GoalSet(_, goal) => Text(goal)
    case NetworkSet(_, network) => Access(network)
    case ArgvSet(_, _, argv) => Words(argv)
    case CwdSet(_, _, cwd) => Text(cwd)
    case EnvSet(_, _, _, value) => Variable(Some(value))
    case EnvRemove(_, _, _) => Variable(None)
    case TimeoutSet(_, _, seconds) => Seconds(seconds)
    case ExitCodesSet(_, _, codes) => Codes(set i | 0 <= i < |codes| :: codes[i])
    case ContinueSet(_, _, flag) => Flag(flag)
    case DefaultTimeoutSet(_, seconds) => Seconds(Some(seconds))
    case MaxOutputSet(_, chars) => Number(chars)
  }

  /** The `target_key` methods. */
  function TargetKey(p: Patch): string {
    match p
    case GoalSet(_, _) => "goal"
    case NetworkSet(_, _) => "allowed_actions.network"
    case ArgvSet(_, checkId, _) => "check:" + checkId + ":argv"
    case CwdSet(_, checkId, _) => "check:" + checkId + ":cwd"
    case EnvSet(_, checkId, name, _) => "check:" + checkId + ":env:" + name
    case EnvRemove(_, checkId, name) => "check:" + checkId + ":env:" + name
    case TimeoutSet(_, checkId, _) => "check:" + checkId + ":timeout_seconds"
    case ExitCodesSet(_, checkId, _) => "check:" + checkId + ":expected_exit_codes"
    case ContinueSet(_, checkId, _) => "check:" + checkId + ":continue_on_failure"
    case DefaultTimeoutSet(_, _) => "limits.default_timeout_seconds"
    case MaxOutputSet(_, _) => "limits.max_output_chars"
  }

  // ---- a key names one field ---------------------------------------------------------------------

  function FieldKey(f: Field): string {
    match f
    case Argv => "argv"
    case Cwd => "cwd"
    case EnvVar(name) => "env:" + name
    case Timeout => "timeout_seconds"
    case ExitCodes => "expected_exit_codes"
    case ContinueOnFailure => "continue_on_failure"
  }

  function KeyOf(t: Target): string {
    match t
    case Goal => "goal"
    case NetworkAccess => "allowed_actions.network"
    case OfCheck(checkId, field) => "check:" + (checkId + ":" + FieldKey(field))
    case DefaultTimeout => "limits.default_timeout_seconds"
    case MaxOutput => "limits.max_output_chars"
  }

  lemma {:induction false} CheckKey(checkId: string, tail: string, field: string)
    requires tail == ":" + field
    ensures "check:" + checkId + tail == "check:" + (checkId + ":" + field)
  {
    assert checkId + tail == checkId + ":" + field;
  }

  lemma {:induction false} EnvKey(checkId: string, name: string)
    ensures "check:" + checkId + ":env:" + name == "check:" + (checkId + ":" + ("env:" + name))
  {
    assert ":env:" + name == ":" + ("env:" + name);
    assert "check:" + checkId + ":env:" + name == "check:" + checkId + (":env:" + name);
    CheckKey(checkId, ":env:" + name, "env:" + name);
  }

  lemma {:induction false} EnvTargetKey(p: Patch)
    requires p.EnvSet? || p.EnvRemove?
    ensures TargetKey(p) == KeyOf(TargetOf(p))
  {
    EnvKey(p.checkId, p.name);
  }

  lemma {:induction false} CommandTargetKey(p: Patch)
    requires p.ArgvSet? || p.CwdSet?
    ensures TargetKey(p) == KeyOf(TargetOf(p))
  {
    CheckKey(p.checkId, ":argv", "argv");
    CheckKey(p.checkId, ":cwd", "cwd");
  }

  lemma {:induction false} TimeoutTargetKey(p: Patch)
    requires p.TimeoutSet?
    ensures TargetKey(p) == KeyOf(TargetOf(p))
  {
    CheckKey(p.checkId, ":timeout_seconds", "timeout_seconds");
  }

  lemma {:induction false} ExitCodesTargetKey(p: Patch)
    requires p.ExitCodesSet?
    ensures TargetKey(p) == KeyOf(TargetOf(p))
  {
    CheckKey(p.checkId, ":expected_exit_codes", "expected_exit_codes");
  }

  lemma {:induction false} ContinueTargetKey(p: Patch)
    requires p.ContinueSet?
    ensures TargetKey(p) == KeyOf(TargetOf(p))
  {
    CheckKey(p.checkId, ":continue_on_failure", "continue_on_failure");
  }

  lemma {:induction false} TargetKeyIsKeyOf(p: Patch)
    ensures TargetKey(p) == KeyOf(TargetOf(p))
  {
    if p.EnvSet? || p.EnvRemove? {
      EnvTargetKey(p);
    } else if p.ArgvSet? || p.CwdSet? {
      CommandTargetKey(p);
    } else if p.TimeoutSet? {
      TimeoutTargetKey(p);
    } else if p.ExitCodesSet? {
      ExitCodesTargetKey(p);
    } else if p.ContinueSet? {
      ContinueTargetKey(p);
    }
  }

  /** Text up to the first colon determines both sides of it. */
  lemma {:induction false} ColonSplitsOnce(a: string, x: string, b: string, y: string)
    requires ':' !in a && ':' !in b
    requires a + ":" + x == b + ":" + y
    ensures a == b && x == y
  {
    var whole := a + ":" + x;
    assert whole[|a|] == ':' && (b + ":" + y)[|b|] == ':';
    assert whole[..|a|] == a && (b + ":" + y)[..|b|] == b;
    assert whole[|a| + 1..] == x && (b + ":" + y)[|b| + 1..] == y;
  }

  lemma {:induction false} FieldKeyInjective(f: Field, g: Field)
    requires FieldKey(f) == FieldKey(g)
    ensures f == g
  {
    assert FieldKey(f)[0] == FieldKey(g)[0] && FieldKey(f)[1] == FieldKey(g)[1];
    if f.EnvVar? && g.EnvVar? {
      assert ("env:" + f.name)[4..] == f.name && ("env:" + g.name)[4..] == g.name;
    }
  }

  lemma {:induction false} StableIdHasNoColon(id: string)
    requires IsStableId(id)
    ensures ':' !in id
  {
  }

  predicate ValidTarget(t: Target) {
    t.OfCheck? ==> IsStableId(t.checkId)
  }

  /** Different fields have different keys, although a variable name may itself contain colons. */
  lemma {:induction false} KeyInjective(t: Target, u: Target)
    requires ValidTarget(t) && ValidTarget(u) && KeyOf(t) == KeyOf(u)
    ensures t == u
  {
    assert KeyOf(t)[0] == KeyOf(u)[0];
    if t.OfCheck? && u.OfCheck? {
      var x, y := t.checkId + ":" + FieldKey(t.field), u.checkId + ":" + FieldKey(u.field);
      assert ("check:" + x)[6..] == x && ("check:" + y)[6..] == y;
      StableIdHasNoColon(t.checkId);
      StableIdHasNoColon(u.checkId);
      ColonSplitsOnce(t.checkId, FieldKey(t.field), u.checkId, FieldKey(u.field));
      FieldKeyInjective(t.field, u.field);
    }
  }

  /** Two patches collide by key exactly when they write the same field. */
  lemma {:induction false} SameKeyIffSameTarget(p: Patch, q: Patch)
    requires ValidPatch(p) && ValidPatch(q)
    ensures TargetKey(p) == TargetKey(q) <==> TargetOf(p) == TargetOf(q)
  {
    TargetKeyIsKeyOf(p);
    TargetKeyIsKeyOf(q);
    if TargetKey(p) == TargetKey(q) {
      KeyInjective(TargetOf(p), TargetOf(q));
    }
  }
}

/** What a capsule looks like after patches, field by field. */
module GenomeFields {
  import opened Prelude
  import opened Models
  import opened GenomePatches

  type Document = Capsule<string>

  datatype Error = UnknownCheck | NoOp | MissingVariable

  /** `_find_check`: the first command with that id, or the number of commands. */
  function FindCheck(commands: seq<CommandCheck>, id: string): (at: nat)
    ensures at <= |commands|
    ensures forall i :: 0 <= i < at ==> commands[i].id != id
    ensures at < |commands| ==> commands[at].id == id
  {
    if commands == [] || commands[0].id == id then 0 else 1 + FindCheck(commands[1..], id)
  }

  function ReadField(c: CommandCheck, f: Field): Value {
    match f
    case Argv => Words(c.argv)
    case Cwd => Text(c.cwd)
    case EnvVar(name) => Variable(if name in c.env then Some(c.env[name]) else None)
    case Timeout => Seconds(c.timeoutSeconds)
    case ExitCodes => Codes(c.expectedExitCodes)
    case ContinueOnFailure => Flag(c.continueOnFailure)
  }

  /** The value read at a target; `None` when it belongs to an unknown check. */
  function Read(c: Document, t: Target): Option<Value> {
    match t
    case Goal => Some(Text(c.goal))
    case NetworkAccess => Some(Access(c.network))
    case DefaultTimeout => Some(Seconds(Some(c.defaultTimeoutSeconds)))
    case MaxOutput => Some(Number(c.maxOutputChars))
    case OfCheck(id, field) =>
      var at := FindCheck(c.commands, id);
      if at == |c.commands| then None else Some(ReadField(c.commands[at], field))
  }

  predicate FitsField(f: Field, v: Value) {
    match f
    case Argv => v.Words?
    case Cwd => v.Text?
    case EnvVar(_) => v.Variable?
    case Timeout => v.Seconds?
    case ExitCodes => v.Codes?
    case ContinueOnFailure => v.Flag?
  }

  /** The value has the type of the field. */
  predicate Fits(t: Target, v: Value) {
    match t
    case Goal => v.Text?
    case NetworkAccess => v.Access?
    case DefaultTimeout => v.Seconds? && v.seconds.Some?
    case MaxOutput => v.Number?
    case OfCheck(_, field) => FitsField(field, v)
  }

  function WriteField(c: CommandCheck, f: Field, v: Value): CommandCheck
    requires FitsField(f, v)
  {
    match f
    case Argv => c.(argv := v.words)
    case Cwd => c.(cwd := v.text)
    case EnvVar(name) => c.(env := if v.variable.Some? then c.env[name := v.variable.value] else c.env - {name})
    case Timeout => c.(timeoutSeconds := v.seconds)
    case ExitCodes => c.(expectedExitCodes := v.codes)
    case ContinueOnFailure => c.(continueOnFailure := v.flag)
  }

  function Write(c: Document, t: Target, v: Value): Document
    requires Fits(t, v) && Read(c, t).Some?
  {
    match t
    case Goal => c.(goal := v.text)
    case NetworkAccess => c.(network := v.network)
    case DefaultTimeout => c.(defaultTimeoutSeconds := v.seconds.value)
    case MaxOutput => c.(maxOutputChars := v.number)
    case OfCheck(id, field) =>
      var at := FindCheck(c.commands, id);
      c.(commands := c.commands[at := WriteField(c.commands[at], field, v)])
  }

  /** What `_apply_patch` does to the capsule, or why it raises. */
  function Apply(c: Document, p: Patch): Result<Document, Error> {
    var before := Read(c, TargetOf(p));
    if before.None? then Err(UnknownCheck)
    else if before.value == NewValue(p) then Err(if p.EnvRemove? then MissingVariable else NoOp)
    else Ok(Write(c, TargetOf(p), NewValue(p)))
  }

  lemma {:induction false} NewValueFits(p: Patch)
    ensures Fits(TargetOf(p), NewValue(p))
  {
  }

  // ---- the fields are independent --------------------------------------------------------------

  predicate SameIds(a: seq<CommandCheck>, b: seq<CommandCheck>) {
    |a| == |b| && forall i :: 0 <= i < |a| ==> a[i].id == b[i].id
  }

  /** Everything no patch can reach. */
  predicate SameShape(a: Document, b: Document) {
    a.id == b.id && a.maxCommands == b.maxCommands && a.fixed == b.fixed && SameIds(a.commands, b.commands)
  }

  lemma {:induction false} FindSame(a: seq<CommandCheck>, b: seq<CommandCheck>, id: string)
    requires SameIds(a, b)
    ensures FindCheck(a, id) == FindCheck(b, id)
  {
    if a != [] && a[0].id != id {
      FindSame(a[1..], b[1..], id);
    }
  }

  lemma {:induction false} FieldLaws(c: CommandCheck, f: Field, v: Value, g: Field)
    requires FitsField(f, v)
    ensures WriteField(c, f, v).id == c.id
    ensures ReadField(WriteField(c, f, v), g) == if g == f then v else ReadField(c, g)
  {
  }

  /** Writing a target changes what is read there, and nothing that is read anywhere else. */
  lemma {:induction false} WriteLaws(c: Document, t: Target, v: Value, u: Target)
    requires Fits(t, v) && Read(c, t).Some?
    ensures SameShape(c, Write(c, t, v))
    ensures Read(Write(c, t, v), u) == if u == t then Some(v) else Read(c, u)
  {
    if t.OfCheck? {
      var at := FindCheck(c.commands, t.checkId);
      var written := Write(c, t, v).commands;
      assert SameIds(c.commands, written) by {
        FieldLaws(c.commands[at], t.field, v, t.field);
      }
      if u.OfCheck? {
        FindSame(c.commands, written, u.checkId);
        FieldLaws(c.commands[at], t.field, v, u.field);
      }
    }
  }

  /** Two checks with one id that read alike in every field are equal. */
  lemma {:induction false} FieldsDetermineCheck(a: CommandCheck, b: CommandCheck)
    requires a.id == b.id
    requires forall f :: ReadField(a, f) == ReadField(b, f)
    ensures a == b
  {
    assert ReadField(a, Argv) == ReadField(b, Argv) && ReadField(a, Cwd) == ReadField(b, Cwd);
    assert ReadField(a, Timeout) == ReadField(b, Timeout) && ReadField(a, ExitCodes) == ReadField(b, ExitCodes);
    assert ReadField(a, ContinueOnFailure) == ReadField(b, ContinueOnFailure);
    forall name ensures name in a.env <==> name in b.env
                ensures name in a.env ==> a.env[name] == b.env[name] {
      assert ReadField(a, EnvVar(name)) == ReadField(b, EnvVar(name));
    }
    assert a.env == b.env;
  }

  predicate DistinctIds(c: Document) {
    forall i, j :: 0 <= i < j < |c.commands| ==> c.commands[i].id != c.commands[j].id
  }

  /** A capsule is determined by its shape and by what is read at every target. */
  lemma {:induction false} ReadsDetermineCapsule(a: Document, b: Document)
    requires SameShape(a, b) && DistinctIds(a)
    requires forall t :: Read(a, t) == Read(b, t)
    ensures a == b
  {
    assert Read(a, Goal) == Read(b, Goal) && Read(a, NetworkAccess) == Read(b, NetworkAccess);
    assert Read(a, DefaultTimeout) == Read(b, DefaultTimeout) && Read(a, MaxOutput) == Read(b, MaxOutput);
    forall i | 0 <= i < |a.commands| ensures a.commands[i] == b.commands[i] {
      var id := a.commands[i].id;
      FindSame(a.commands, b.commands, id);
      assert FindCheck(a.commands, id) == i;
      forall f ensures ReadField(a.commands[i], f) == ReadField(b.commands[i], f) {
        assert Read(a, OfCheck(id, f)) == Read(b, OfCheck(id, f));
      }
      FieldsDetermineCheck(a.commands[i], b.commands[i]);
    }
    assert a.commands == b.commands;
  }

  // ---- applying many patches -------------------------------------------------------------------

  /** The loop of `apply_genome` over its patches. */
  function ApplyAll(c: Document, patches: seq<Patch>): Result<Document, Error>
    decreases |patches|
  {
    if patches == [] then Ok(c)
    else match Apply(c, patches[0])
      case Err(e) => Err(e)
      case Ok(next) => ApplyAll(next, patches[1..])
  }

  /** The patch would succeed on this capsule. */
  predicate Applicable(c: Document, p: Patch) {
    Read(c, TargetOf(p)).Some? && Read(c, TargetOf(p)).value != NewValue(p)
  }

  ghost predicate DistinctTargets(patches: seq<Patch>) {
    forall i, j :: 0 <= i < j < |patches| ==> TargetOf(patches[i]) != TargetOf(patches[j])
  }

  ghost predicate Writes(patches: seq<Patch>, t: Target, v: Value) {
    exists i :: 0 <= i < |patches| && TargetOf(patches[i]) == t && NewValue(patches[i]) == v
  }

  ghost predicate Declared(patches: seq<Patch>, t: Target) {
    exists i :: 0 <= i < |patches| && TargetOf(patches[i]) == t
  }

  /** The result read at one target: the declared new value, or the base value. */
  ghost predicate ReadsAsPatched(base: Document, patches: seq<Patch>, result: Document, t: Target) {
    && (Declared(patches, t) ==> Read(result, t).Some? && Writes(patches, t, Read(result, t).value))
    && (!Declared(patches, t) ==> Read(result, t) == Read(base, t))
  }

  lemma {:induction false} ApplyKeepsApplicability(c: Document, p: Patch, q: Patch)
    requires Apply(c, p).Ok? && TargetOf(p) != TargetOf(q)
    ensures Applicable(Apply(c, p).value, q) <==> Applicable(c, q)
  {
    NewValueFits(p);
    WriteLaws(c, TargetOf(p), NewValue(p), TargetOf(q));
  }

  /** With distinct targets the patches succeed together exactly when each succeeds alone on the base. */
  lemma {:induction false} SucceedsIffEachApplicable(c: Document, patches: seq<Patch>)
    requires DistinctTargets(patches)
    ensures ApplyAll(c, patches).Ok? <==> forall i :: 0 <= i < |patches| ==> Applicable(c, patches[i])
    decreases |patches|
  {
    if patches != [] {
      var p, rest := patches[0], patches[1..];
      if Apply(c, p).Ok? {
        var next := Apply(c, p).value;
        SucceedsIffEachApplicable(next, rest);
        forall i | 0 <= i < |rest| ensures Applicable(next, rest[i]) <==> Applicable(c, patches[i + 1]) {
          ApplyKeepsApplicability(c, p, rest[i]);
        }
        if forall i :: 0 <= i < |rest| ==> Applicable(next, rest[i]) {
          forall i | 0 <= i < |patches| ensures Applicable(c, patches[i]) {
            assert i > 0 ==> Applicable(next, rest[i - 1]);
          }
        }
      } else {
        assert !Applicable(c, patches[0]);
      }
    }
  }

  /** Exactly the declared targets change, each to its declared value. */
  lemma {:induction false} PatchedReads(c: Document, patches: seq<Patch>, t: Target)
    requires DistinctTargets(patches) && ApplyAll(c, patches).Ok?
    ensures SameShape(c, ApplyAll(c, patches).value)
    ensures ReadsAsPatched(c, patches, ApplyAll(c, patches).value, t)
    decreases |patches|
  {
    if patches != [] {
      var p, rest := patches[0], patches[1..];
      var next := Apply(c, p).value;
      PatchedReads(next, rest, t);
      NewValueFits(p);
      WriteLaws(c, TargetOf(p), NewValue(p), t);
      DeclaredCons(p, rest, t);
      assert patches == [p] + rest;
      if Declared(rest, t) {
        var v := Read(ApplyAll(next, rest).value, t).value;
        var i :| 0 <= i < |rest| && TargetOf(rest[i]) == t && NewValue(rest[i]) == v;
        assert patches[i + 1] == rest[i];
      } else if TargetOf(p) == t {
        assert patches[0] == p;
      }
    }
  }

  lemma {:induction false} DeclaredCons(p: Patch, rest: seq<Patch>, t: Target)
    ensures Declared([p] + rest, t) <==> TargetOf(p) == t || Declared(rest, t)
  {
    var all := [p] + rest;
    if Declared(rest, t) {
      var i :| 0 <= i < |rest| && TargetOf(rest[i]) == t;
      assert all[i + 1] == rest[i];
    }
    if TargetOf(p) == t {
      assert all[0] == p;
    }
    if Declared(all, t) {
      var i :| 0 <= i < |all| && TargetOf(all[i]) == t;
      assert i > 0 ==> rest[i - 1] == all[i];
    }
  }

  lemma {:induction false} SamePatchesDistinct(patches: seq<Patch>, other: seq<Patch>)
    requires multiset(patches) == multiset(other) && DistinctTargets(patches)
    ensures DistinctTargets(other)
  {
    forall i, j | 0 <= i < j < |other| ensures TargetOf(other[i]) != TargetOf(other[j]) {
      assert multiset(other)[other[i]] >= 1 && multiset(other)[other[j]] >= 1;
      assert other[i] in multiset(patches) && other[j] in multiset(patches);
      var m :| 0 <= m < |patches| && patches[m] == other[i];
      var n :| 0 <= n < |patches| && patches[n] == other[j];
      if m == n {
        TwiceCounted(other, i, j);
        OnceCounted(patches, m);
      }
    }
  }

  lemma {:induction false} TwiceCounted(patches: seq<Patch>, i: nat, j: nat)
    requires i < j < |patches| && patches[i] == patches[j]
    ensures multiset(patches)[patches[i]] >= 2
  {
    assert patches == patches[..i] + [patches[i]] + patches[i + 1..j] + [patches[j]] + patches[j + 1..];
  }

  lemma {:induction false} OnceCounted(patches: seq<Patch>, m: nat)
    requires m < |patches| && DistinctTargets(patches)
    ensures multiset(patches)[patches[m]] == 1
  {
    assert patches == patches[..m] + [patches[m]] + patches[m + 1..];
    assert patches[m] !in patches[..m] && patches[m] !in patches[m + 1..];
  }

  /** A result does not depend on patch order: any permutation fails too or yields the same capsule. */
  lemma {:induction false} OrderDoesNotMatter(c: Document, patches: seq<Patch>, other: seq<Patch>)
    requires DistinctTargets(patches) && DistinctIds(c)
    requires multiset(patches) == multiset(other)
    ensures ApplyAll(c, patches).Ok? <==> ApplyAll(c, other).Ok?
    ensures ApplyAll(c, patches).Ok? ==> ApplyAll(c, patches) == ApplyAll(c, other)
  {
    SamePatchesDistinct(patches, other);
    SucceedsIffEachApplicable(c, patches);
    SucceedsIffEachApplicable(c, other);
    if ApplyAll(c, patches).Ok? {
      AllApplicable(c, patches, other);
      SameResult(c, patches, other);
    } else if ApplyAll(c, other).Ok? {
      AllApplicable(c, other, patches);
    }
  }

  lemma {:induction false} SameResult(c: Document, patches: seq<Patch>, other: seq<Patch>)
    requires DistinctTargets(patches) && DistinctTargets(other) && DistinctIds(c)
    requires multiset(patches) == multiset(other)
    requires ApplyAll(c, patches).Ok? && ApplyAll(c, other).Ok?
    ensures ApplyAll(c, patches) == ApplyAll(c, other)
  {
    var a, b := ApplyAll(c, patches).value, ApplyAll(c, other).value;
    PatchedReads(c, patches, Goal);
    PatchedReads(c, other, Goal);
    forall t ensures Read(a, t) == Read(b, t) {
      PatchedReads(c, patches, t);
      PatchedReads(c, other, t);
      SameReads(c, patches, a, other, b, t);
    }
    ReadsDetermineCapsule(a, b);
  }

  /** A declared target is read as the one patch for it says. */
  lemma {:induction false} ReadsTheOnePatch(c: Document, patches: seq<Patch>, a: Document, p: Patch)
    requires DistinctTargets(patches) && p in patches
    requires ReadsAsPatched(c, patches, a, TargetOf(p))
    ensures Read(a, TargetOf(p)) == Some(NewValue(p))
  {
    var t := TargetOf(p);
    var i :| 0 <= i < |patches| && patches[i] == p;
    assert Declared(patches, t);
    var k :| 0 <= k < |patches| && TargetOf(patches[k]) == t && NewValue(patches[k]) == Read(a, t).value;
    assert i == k;
  }

  lemma {:induction false} DeclaredMember(patches: seq<Patch>, t: Target) returns (p: Patch)
    requires Declared(patches, t)
    ensures p in patches && TargetOf(p) == t
  {
    var i :| 0 <= i < |patches| && TargetOf(patches[i]) == t;
    p := patches[i];
  }

  lemma {:induction false} MemberDeclared(patches: seq<Patch>, p: Patch)
    requires p in patches
    ensures Declared(patches, TargetOf(p))
  {
    var i :| 0 <= i < |patches| && patches[i] == p;
  }

  /** Two results described by the same patches read alike. */
  lemma {:induction false} SameReads(
    c: Document, patches: seq<Patch>, a: Document, other: seq<Patch>, b: Document, t: Target)
    requires DistinctTargets(patches) && DistinctTargets(other)
    requires multiset(patches) == multiset(other)
    requires ReadsAsPatched(c, patches, a, t) && ReadsAsPatched(c, other, b, t)
    ensures Read(a, t) == Read(b, t)
  {
    if Declared(patches, t) {
      var p := DeclaredMember(patches, t);
      assert p in multiset(other);
      ReadsTheOnePatch(c, patches, a, p);
      ReadsTheOnePatch(c, other, b, p);
    } else if Declared(other, t) {
      var p := DeclaredMember(other, t);
      assert p in multiset(patches);
      MemberDeclared(patches, p);
    }
  }

  lemma {:induction false} AllApplicable(c: Document, patches: seq<Patch>, other: seq<Patch>)
    requires multiset(patches) == multiset(other)
    requires forall i :: 0 <= i < |patches| ==> Applicable(c, patches[i])
    ensures forall i :: 0 <= i < |other| ==> Applicable(c, other[i])
  {
    forall i | 0 <= i < |other| ensures Applicable(c, other[i]) {
      assert other[i] in multiset(patches);
      var j :| 0 <= j < |patches| && patches[j] == other[i];
    }
  }

  /** A nonempty set of patches always changes the capsule: no patch is undone by a later one. */
  lemma {:induction false} ResultDiffers(c: Document, patches: seq<Patch>)
    requires DistinctTargets(patches) && patches != [] && ApplyAll(c, patches).Ok?
    ensures ApplyAll(c, patches).value != c
  {
    var t := TargetOf(patches[0]);
    SucceedsIffEachApplicable(c, patches);
    PatchedReads(c, patches, t);
    assert Declared(patches, t);
    var result := ApplyAll(c, patches).value;
    var i :| 0 <= i < |patches| && TargetOf(patches[i]) == t && NewValue(patches[i]) == Read(result, t).value;
    assert i == 0 && Applicable(c, patches[0]);
  }
}

/** `_apply_patch` and `apply_genome` on mutable capsule objects. */
module GenomeApplication {
  import opened Prelude
  import opened Models
  import opened GenomePatches
  import opened GenomeFields
  import opened GenomeMeaning

  /** A command check as the mutable object that patches assign to. */
  class Check {
    const id: string
    var argv: seq<string>
    var cwd: string
    var env: map<string, string>
    var timeoutSeconds: Option<real>
    var expectedExitCodes: set<int>
    var continueOnFailure: bool

    function View(): CommandCheck
      reads this
    {
      CommandCheck(id, argv, cwd, env, timeoutSeconds, expectedExitCodes, continueOnFailure)
    }

    constructor (c: CommandCheck)
      ensures View() == c
    {
      id, argv, cwd, env := c.id, c.argv, c.cwd, c.env;
      timeoutSeconds := c.timeoutSeconds;
      expectedExitCodes, continueOnFailure := c.expectedExitCodes, c.continueOnFailure;
    }

    /** The branch of `_apply_patch` for one field of this check. */
    method Assign(patch: Patch) returns (error: Option<Error>)
      requires TargetOf(patch).OfCheck?
      modifies this
      ensures var field, value := TargetOf(patch).field, NewValue(patch);
              var before := old(View());
              if ReadField(before, field) == value then
                error == Some(if patch.EnvRemove? then MissingVariable else NoOp) && View() == before
              else error == None && FitsField(field, value) && View() == WriteField(before, field, value)
    {
      error := None;
      match patch {
        case ArgvSet(_, _, words) =>
          var before := argv;
          argv := words;
          if before == argv { error := Some(NoOp); }
        case CwdSet(_, _, path) =>
          var before := cwd;
          cwd := path;
          if before == cwd { error := Some(NoOp); }
        case EnvSet(_, _, name, value) =>
          var before := if name in env then Some(env[name]) else None;
          env := env[name := value];
          if before == Some(env[name]) {
            assert env == old(env);
            error := Some(NoOp);
          }
        case EnvRemove(_, _, name) =>
          if name !in env {
            error := Some(MissingVariable);
          } else {
            env := env - {name};
          }
        case TimeoutSet(_, _, seconds) =>
          var before := timeoutSeconds;
          timeoutSeconds := seconds;
          if before == timeoutSeconds { error := Some(NoOp); }
        case ExitCodesSet(_, _, codes) =>
          var before := expectedExitCodes;
          expectedExitCodes := set i | 0 <= i < |codes| :: codes[i];
          if before == expectedExitCodes { error := Some(NoOp); }
        case ContinueSet(_, _, flag) =>
          var before := continueOnFailure;
          continueOnFailure := flag;
          if before == continueOnFailure { error := Some(NoOp); }
        case _ =>
      }
    }
  }

  function Views(checks: seq<Check>): (views: seq<CommandCheck>)
    reads checks
    ensures |views| == |checks|
    ensures forall i :: 0 <= i < |checks| ==> views[i] == checks[i].View()
  {
    seq(|checks|, i requires 0 <= i < |checks| reads checks => checks[i].View())
  }

  lemma {:induction false} OneViewChanged(before: seq<CommandCheck>, after: seq<CommandCheck>, at: nat)
    requires at < |before| == |after|
    requires forall i :: 0 <= i < |before| && i != at ==> after[i] == before[i]
    ensures after == before[at := after[at]]
  {
  }

  class TaskCapsule {
    const id: string
    const maxCommands: int
    const fixed: string
    var goal: string
    var network: Network
    var defaultTimeoutSeconds: real
    var maxOutputChars: int
    const commands: seq<Check>

    ghost predicate Valid() {
      forall i, j :: 0 <= i < j < |commands| ==> commands[i] != commands[j]
    }

    function View(): Document
      reads this, commands
    {
      Capsule(id, goal, network, maxCommands, defaultTimeoutSeconds, maxOutputChars, Views(commands), fixed)
    }

    constructor (c: Document, checks: seq<Check>)
      requires Views(checks) == c.commands
      requires forall i, j :: 0 <= i < j < |checks| ==> checks[i] != checks[j]
      ensures Valid() && View() == c && commands == checks
    {
      id, maxCommands, fixed, commands := c.id, c.maxCommands, c.fixed, checks;
      goal, network := c.goal, c.network;
      defaultTimeoutSeconds, maxOutputChars := c.defaultTimeoutSeconds, c.maxOutputChars;
    }

    /** `_find_check`: the loop over the commands. */
    method Find(checkId: string) returns (at: nat)
      ensures at == FindCheck(View().commands, checkId)
    {
      at := 0;
      while at < |commands|
        invariant at <= |commands|
        invariant forall i :: 0 <= i < at ==> commands[i].id != checkId
      {
        if commands[at].id == checkId {
          return;
        }
        at := at + 1;
      }
    }

    /** `_apply_patch`: a raise leaves the capsule as it was. */
    method ApplyPatch(patch: Patch) returns (error: Option<Error>)
      requires Valid()
      modifies this, commands
      ensures Valid()
      ensures match Apply(old(View()), patch)
              case Ok(next) => error == None && View() == next
              case Err(e) => error == Some(e) && View() == old(View())
      ensures error.None? ==> !Carries(patch, old(View())) && Carries(patch, View())
      ensures error.Some? ==> Refuses(old(View()), patch, error.value)
    {
      OnePatch(View(), patch);
      error := None;
      match patch {
        case GoalSet(_, value) =>
          var before := goal;
          goal := value;
          if before == goal { error := Some(NoOp); }
        case NetworkSet(_, value) =>
          var before := network;
          network := value;
          if before == network { error := Some(NoOp); }
        case DefaultTimeoutSet(_, seconds) =>
          var before := defaultTimeoutSeconds;
          defaultTimeoutSeconds := seconds;
          if before == defaultTimeoutSeconds { error := Some(NoOp); }
        case MaxOutputSet(_, chars) =>
          var before := maxOutputChars;
          maxOutputChars := chars;
          if before == maxOutputChars { error := Some(NoOp); }
        case _ =>
          error := ApplyToCheck(patch);
      }
    }

    /** The patches in order, up to the first that raises. */
    method ApplyPatches(patches: seq<Patch>) returns (error: Option<Error>)
      requires Valid()
      modifies this, commands
      ensures Valid()
      ensures match ApplyAll(old(View()), patches)
              case Ok(next) => error == None && View() == next
              case Err(e) => error == Some(e)
    {
      assert patches[0..] == patches;
      for i := 0 to |patches|
        invariant Valid()
        invariant ApplyAll(old(View()), patches) == ApplyAll(View(), patches[i..])
      {
        assert patches[i..][1..] == patches[i + 1..];
        error := ApplyPatch(patches[i]);
        if error.Some? {
          return;
        }
      }
      error := None;
    }

    method ApplyToCheck(patch: Patch) returns (error: Option<Error>)
      requires Valid() && TargetOf(patch).OfCheck?
      modifies commands
      ensures match Apply(old(View()), patch)
              case Ok(next) => error == None && View() == next
              case Err(e) => error == Some(e) && View() == old(View())
    {
      var at := Find(TargetOf(patch).checkId);
      if at == |commands| {
        return Some(UnknownCheck);
      }
      ghost var before := Views(commands);
      error := commands[at].Assign(patch);
      OneViewChanged(before, Views(commands), at);
    }
  }

  /** `capsule.model_copy(deep=True)`. */
  method DeepCopy(source: TaskCapsule) returns (copy: TaskCapsule)
    ensures fresh(copy) && fresh(copy.commands) && copy.Valid() && copy.View() == source.View()
  {
    var document := source.View();
    var checks: seq<Check> := [];
    for i := 0 to |document.commands|
      invariant |checks| == i && fresh(checks)
      invariant forall j :: 0 <= j < i ==> checks[j].View() == document.commands[j]
      invariant forall j, k :: 0 <= j < k < i ==> checks[j] != checks[k]
    {
      var check := new Check(document.commands[i]);
      checks := checks + [check];
    }
    assert Views(checks) == document.commands;
    copy := new TaskCapsule(document, checks);
  }

  datatype Genome = Genome(id: string, baseSha256: string, patches: seq<Patch>)

  /** `patches_must_be_unambiguous`, with the patch validators. */
  ghost predicate ValidGenome(g: Genome) {
    && 1 <= |g.patches| <= 100
    && (forall i :: 0 <= i < |g.patches| ==> ValidPatch(g.patches[i]))
    && (forall i, j :: 0 <= i < j < |g.patches| ==> g.patches[i].id != g.patches[j].id)
    && forall i, j :: 0 <= i < j < |g.patches| ==> TargetKey(g.patches[i]) != TargetKey(g.patches[j])
  }

  lemma {:induction false} UnambiguousTargets(g: Genome)
    requires ValidGenome(g)
    ensures DistinctTargets(g.patches)
  {
    forall i, j | 0 <= i < j < |g.patches| ensures TargetOf(g.patches[i]) != TargetOf(g.patches[j]) {
      SameKeyIffSameTarget(g.patches[i], g.patches[j]);
    }
  }

  datatype Application = Application(
    genomeId: string, baseSha256: string, resultSha256: string, appliedIds: seq<string>, capsule: Document)

  datatype ApplyError = DigestMismatch | Rejected(error: Error) | SchemaViolation | Unchanged

  function PatchIds(patches: seq<Patch>): seq<string> {
    seq(|patches|, i requires 0 <= i < |patches| => patches[i].id)
  }

  /** `apply_genome` as a function of the two documents. */
  function ApplicationOf(g: Genome, base: Document, digest: Document -> string): Result<Application, ApplyError> {
    if g.baseSha256 != digest(base) then Err(DigestMismatch)
    else match ApplyAll(base, g.patches)
      case Err(e) => Err(Rejected(e))
      case Ok(result) =>
        if !ValidCapsule(result) then Err(SchemaViolation)
        else if digest(base) == digest(result) then Err(Unchanged)
        else Ok(Application(g.id, digest(base), digest(result), PatchIds(g.patches), result))
  }

  /** `apply_genome`: patch a deep copy step by step; the input capsule is never touched. */
  method ApplyGenome(g: Genome, capsule: TaskCapsule, digest: Document -> string)
    returns (outcome: Result<Application, ApplyError>)
    requires capsule.Valid()
    ensures outcome == ApplicationOf(g, capsule.View(), digest)
    ensures ValidGenome(g) && ValidCapsule(capsule.View()) && outcome.Ok? ==>
              Delivers(g, capsule.View(), outcome.value.capsule)
  {
    var base := capsule.View();
    ApplicationDelivers(g, base, digest);
    if g.baseSha256 != digest(base) {
      return Err(DigestMismatch);
    }
    var updated := DeepCopy(capsule);
    var error := updated.ApplyPatches(g.patches);
    if error.Some? {
      return Err(Rejected(error.value));
    }
    var result := updated.View();
    if !ValidCapsule(result) {
      return Err(SchemaViolation);
    }
    if digest(base) == digest(result) {
      return Err(Unchanged);
    }
    return Ok(Application(g.id, digest(base), digest(result), PatchIds(g.patches), result));
  }

  // ---- when the patched capsule fits the schema ---------------------------------------------------

  predicate NegativeCode(p: Patch) {
    p.ExitCodesSet? && exists i :: 0 <= i < |p.codes| && p.codes[i] < 0
  }

  lemma {:induction false} FieldKeepsValid(c: CommandCheck, p: Patch)
    requires ValidCheck(c) && ValidPatch(p) && TargetOf(p).OfCheck? && FitsField(TargetOf(p).field, NewValue(p))
    ensures ValidCheck(WriteField(c, TargetOf(p).field, NewValue(p))) <==> !NegativeCode(p)
  {
    if p.ExitCodesSet? {
      var codes := NewValue(p).codes;
      assert p.codes[0] in codes;
      if NegativeCode(p) {
        var i :| 0 <= i < |p.codes| && p.codes[i] < 0;
        assert p.codes[i] in codes;
      }
    }
  }

  lemma {:induction false} StepKeepsValid(c: Document, p: Patch)
    requires ValidCapsule(c) && ValidPatch(p) && Apply(c, p).Ok?
    ensures !NegativeCode(p) ==> ValidCapsule(Apply(c, p).value)
    ensures DistinctIds(Apply(c, p).value)
  {
    NewValueFits(p);
    WriteLaws(c, TargetOf(p), NewValue(p), TargetOf(p));
    if TargetOf(p).OfCheck? {
      FieldKeepsValid(c.commands[FindCheck(c.commands, TargetOf(p).checkId)], p);
    }
  }

  lemma {:induction false} PatchesKeepValid(c: Document, patches: seq<Patch>)
    requires ValidCapsule(c) && ApplyAll(c, patches).Ok?
    requires forall i :: 0 <= i < |patches| ==> ValidPatch(patches[i]) && !NegativeCode(patches[i])
    ensures ValidCapsule(ApplyAll(c, patches).value)
    decreases |patches|
  {
    if patches != [] {
      StepKeepsValid(c, patches[0]);
      PatchesKeepValid(Apply(c, patches[0]).value, patches[1..]);
    }
  }

  /**
   * Valid patches applied to a valid capsule violate its schema exactly when one of them sets a
   * negative exit code, which the patch model accepts and the capsule model does not.
   */
  lemma {:induction false} SchemaViolationIff(c: Document, patches: seq<Patch>)
    requires ValidCapsule(c) && DistinctTargets(patches) && ApplyAll(c, patches).Ok?
    requires forall i :: 0 <= i < |patches| ==> ValidPatch(patches[i])
    ensures ValidCapsule(ApplyAll(c, patches).value) <==> forall i :: 0 <= i < |patches| ==> !NegativeCode(patches[i])
  {
    if forall i :: 0 <= i < |patches| ==> !NegativeCode(patches[i]) {
      PatchesKeepValid(c, patches);
    } else {
      var i :| 0 <= i < |patches| && NegativeCode(patches[i]);
      PatchedReads(c, patches, TargetOf(patches[i]));
      ReadsTheOnePatch(c, patches, ApplyAll(c, patches).value, patches[i]);
      NegativeCodeIsRead(ApplyAll(c, patches).value, patches[i]);
    }
  }

  lemma {:induction false} NegativeCodeIsRead(result: Document, p: Patch)
    requires NegativeCode(p) && Read(result, TargetOf(p)) == Some(NewValue(p))
    ensures !ValidCapsule(result)
  {
    var at := FindCheck(result.commands, p.checkId);
    var j :| 0 <= j < |p.codes| && p.codes[j] < 0;
    assert p.codes[j] in result.commands[at].expectedExitCodes;
    assert !ValidCheck(result.commands[at]);
  }

  // ---- the genome as a whole ------------------------------------------------------------------------

  /** The "must change the capsule" error needs two different capsules with the same digest. */
  lemma {:induction false} UnchangedMeansCollision(g: Genome, base: Document, digest: Document -> string)
    requires ValidGenome(g) && ApplicationOf(g, base, digest) == Err(Unchanged)
    ensures ApplyAll(base, g.patches).Ok?
    ensures ApplyAll(base, g.patches).value != base && digest(ApplyAll(base, g.patches).value) == digest(base)
  {
    UnambiguousTargets(g);
    ResultDiffers(base, g.patches);
  }

  /** Permuting the patches of a genome changes nothing but the list of applied ids. */
  lemma {:induction false} GenomeOrderDoesNotMatter(
    g: Genome, permuted: Genome, base: Document, digest: Document -> string)
    requires ValidGenome(g) && ValidCapsule(base)
    requires permuted == g.(patches := permuted.patches) && multiset(permuted.patches) == multiset(g.patches)
    ensures ApplicationOf(g, base, digest).Ok? <==> ApplicationOf(permuted, base, digest).Ok?
    ensures ApplicationOf(g, base, digest).Ok? ==>
              ApplicationOf(g, base, digest).value ==
              ApplicationOf(permuted, base, digest).value.(appliedIds := PatchIds(g.patches))
  {
    UnambiguousTargets(g);
    OrderDoesNotMatter(base, g.patches, permuted.patches);
  }

  // ---- what an application is -----------------------------------------------------------------------

  /** The capsule carries every patch and is otherwise the base. */
  ghost predicate Delivers(g: Genome, base: Document, capsule: Document) {
    (forall i :: 0 <= i < |g.patches| ==> Carries(g.patches[i], capsule)) && OnlyPatched(base, g.patches, capsule)
  }

  lemma {:induction false} ApplicationDelivers(g: Genome, base: Document, digest: Document -> string)
    ensures ValidGenome(g) && ValidCapsule(base) && ApplicationOf(g, base, digest).Ok? ==>
              Delivers(g, base, ApplicationOf(g, base, digest).value.capsule)
  {
    if ValidGenome(g) && ValidCapsule(base) && ApplicationOf(g, base, digest).Ok? {
      ApplicationCarriesPatches(g, base, digest);
    }
  }

  /** The resulting capsule carries every patch and is otherwise the base. */
  lemma {:induction false} ApplicationCarriesPatches(g: Genome, base: Document, digest: Document -> string)
    requires ValidGenome(g) && ValidCapsule(base) && ApplicationOf(g, base, digest).Ok?
    ensures Delivers(g, base, ApplicationOf(g, base, digest).value.capsule)
  {
    UnambiguousTargets(g);
    var capsule := ApplyAll(base, g.patches).value;
    forall i | 0 <= i < |g.patches| ensures Carries(g.patches[i], capsule) {
      AllCarried(base, g.patches, i);
    }
    NothingElseChanges(base, g.patches, capsule);
  }

  /** What an application records beside the capsule. */
  lemma {:induction false} ApplicationRecords(g: Genome, base: Document, digest: Document -> string)
    requires ApplicationOf(g, base, digest).Ok?
    ensures var a := ApplicationOf(g, base, digest).value;
            && a.genomeId == g.id && a.baseSha256 == digest(base) == g.baseSha256
            && a.resultSha256 == digest(a.capsule) && a.resultSha256 != a.baseSha256 && ValidCapsule(a.capsule)
            && |a.appliedIds| == |g.patches|
            && forall i :: 0 <= i < |g.patches| ==> a.appliedIds[i] == g.patches[i].id
  {
  }

  /** When there is an application, for a genome written against this base. */
  lemma {:induction false} ApplicationSucceedsIff(g: Genome, base: Document, digest: Document -> string)
    requires ValidGenome(g) && ValidCapsule(base)
    requires ApplyAll(base, g.patches).Ok? ==> digest(ApplyAll(base, g.patches).value) != digest(base)
    ensures ApplicationOf(g, base, digest).Ok? <==>
              && g.baseSha256 == digest(base)
              && (forall i :: 0 <= i < |g.patches| ==> Welcomes(base, g.patches[i]))
              && (forall i :: 0 <= i < |g.patches| ==> !NegativeCode(g.patches[i]))
  {
    UnambiguousTargets(g);
    AllSucceedIff(base, g.patches);
    if ApplyAll(base, g.patches).Ok? {
      SchemaViolationIff(base, g.patches);
    }
  }
}
