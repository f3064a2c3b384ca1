/** The task capsule schema of models.py, as values, with the validators the other modules rely on. */
module Models {
  import opened Prelude

  datatype CommandCheck = CommandCheck(
    id: string, argv: seq<string>, cwd: string, env: map<string, string>, timeoutSeconds: Option<real>,
    expectedExitCodes: set<int>, continueOnFailure: bool)

  datatype Network = Deny | Allow

  /** The fields of a capsule that a genome can reach, and `fixed` for the rest of the document. */
  datatype Capsule<F> = Capsule(
    id: string, goal: string, network: Network, maxCommands: int, defaultTimeoutSeconds: real,
    maxOutputChars: int, commands: seq<CommandCheck>, fixed: F)

  const NUL: char := '\0'

  function SplitAt(s: string, separator: char, from: nat): (at: nat)
    requires from <= |s|
    ensures from <= at <= |s|
    ensures forall i :: from <= i < at ==> s[i] != separator
    ensures at < |s| ==> s[at] == separator
    decreases |s| - from
  {
    if from == |s| || s[from] == separator then from else SplitAt(s, separator, from + 1)
  }

  /** `text.split(separator)` for a one-character separator. */
  function Split(s: string, separator: char): (parts: seq<string>)
    ensures |parts| >= 1
    ensures forall i :: 0 <= i < |parts| ==> separator !in parts[i]
    decreases |s|
  {
    var at := SplitAt(s, separator, 0);
    if at == |s| then [s] else [s[..at]] + Split(s[at + 1..], separator)
  }

  /** Relative, without NUL, and without a `..` component. */
  predicate SafeRelativePath(path: string) {
    && NUL !in path
    && (path == "" || path[0] != '/')
    && ".." !in Split(path, '/')
  }

  predicate SafeEnvName(name: string) {
    name != "" && '=' !in name && NUL !in name
  }

  predicate SafeArgv(argv: seq<string>) {
    |argv| >= 1 && forall i :: 0 <= i < |argv| ==> argv[i] != "" && NUL !in argv[i]
  }

  predicate SafeTimeout(seconds: real) {
    0.0 < seconds <= 3600.0
  }

  predicate ValidCheck(c: CommandCheck) {
    && IsStableId(c.id)
    && SafeArgv(c.argv)
    && SafeRelativePath(c.cwd)
    && (forall name :: name in c.env ==> SafeEnvName(name) && NUL !in c.env[name])
    && (c.timeoutSeconds.Some? ==> SafeTimeout(c.timeoutSeconds.value))
    && c.expectedExitCodes != {}
    && (forall code :: code in c.expectedExitCodes ==> code >= 0)
  }

  predicate ValidCapsule<F>(c: Capsule<F>) {
    && IsStableId(c.id)
    && 1 <= |c.goal| <= 10_000
    && 1 <= c.maxCommands <= 1_000
    && SafeTimeout(c.defaultTimeoutSeconds)
    && 256 <= c.maxOutputChars <= 5_000_000
    && 1 <= |c.commands| <= c.maxCommands
    && (forall i :: 0 <= i < |c.commands| ==> ValidCheck(c.commands[i]))
    && forall i, j :: 0 <= i < j < |c.commands| ==> c.commands[i].id != c.commands[j].id
  }
}
