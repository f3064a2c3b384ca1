/** Declarative oracles of oracles.py: evaluation, mutation, and compilation into command checks. */
module Oracles {
  import opened Prelude
  import opened Models
  import opened JsonValues
  import JsonPointer

  type Bytes = seq<bv8>

  const MAX_DOCUMENT_BYTES := 20 * 1024 * 1024
  const MAX_SPEC_BYTES := 64 * 1024
  const MUTATION_ENV := "E2H_ORACLE_MUTATION"
  const ZEROS := Repeat('0', 64)
  const ONES := Repeat('1', 64)
  const MUTATION_KEY := "__e2h_mutation__"

  /** `character * count`. */
  function Repeat(character: char, count: nat): (s: string)
    ensures |s| == count && forall i :: 0 <= i < count ==> s[i] == character
  {
    if count == 0 then "" else Repeat(character, count - 1) + [character]
  }

  datatype FileMode = Exists | Missing | TextEquals | TextContains | Sha256

  datatype JsonMode = PointerEquals | PointerExists | PointerAbsent

  datatype Template =
    | FileOracle(id: string, path: string, mode: FileMode, expected: Option<string>, cwd: string)
    | JsonOracle(id: string, path: string, pointer: string, jsonMode: JsonMode, value: Json, cwd: string)
    | ArtifactOracle(
        id: string, path: string, sha256: Option<string>, minBytes: Option<int>, maxBytes: Option<int>, cwd: string)

  predicate IsDigest(s: string) {
    |s| == 64 && forall i :: 0 <= i < 64 ==> '0' <= s[i] <= '9' || 'a' <= s[i] <= 'f'
  }

  predicate NeedsExpected(mode: FileMode) {
    mode == TextEquals || mode == TextContains || mode == Sha256
  }

  predicate NonNegative(bound: Option<int>) {
    bound.Some? ==> bound.value >= 0
  }

  /** The validators of the three template models. */
  predicate ValidTemplate(t: Template) {
    && SafeRelativePath(t.path) && SafeRelativePath(t.cwd)
    && (t.FileOracle? ==>
          (NeedsExpected(t.mode) <==> t.expected.Some?) && (t.mode == Sha256 ==> IsDigest(t.expected.value)))
    && (t.JsonOracle? ==>
          JsonPointer.ValidPointer(t.pointer) && (t.jsonMode == PointerEquals || t.value == Null))
    && (t.ArtifactOracle? ==>
          && (t.sha256.Some? || t.minBytes.Some? || t.maxBytes.Some?)
          && (t.sha256.Some? ==> IsDigest(t.sha256.value))
          && NonNegative(t.minBytes) && NonNegative(t.maxBytes)
          && (t.minBytes.Some? && t.maxBytes.Some? ==> t.minBytes.value <= t.maxBytes.value))
  }

  /** Hashing, decoding and serialization, taken as given. */
  datatype Library = Library(
    sha256: Bytes -> string, decodeUtf8: Bytes -> Option<string>, parseJson: string -> Option<Json>,
    render: Template -> string, parse: string -> Option<Template>, size: string -> nat)

  /** What an oracle finds at its path; `Unreadable` stands for every OSError and OracleError of the lookup. */
  datatype Entry = Nothing | Unreadable | Regular(bytes: Bytes)

  /** The workspace: the entry at each path under each working directory. */
  type Files = (string, string) -> Entry

  datatype Error =
    | UnsupportedOperator | Inaccessible | DocumentTooLarge | NotUtf8 | InvalidJson
    | FileMissing

  datatype Evaluation = Evaluation(passed: bool, error: Option<Error>)

  function Verdict(passed: bool): Evaluation {
    Evaluation(passed, None)
  }

  function Failure(error: Error): Evaluation {
    Evaluation(false, Some(error))
  }

  // ---- mutation ---------------------------------------------------------------------------------

  /** `oracle_mutation_operator`. */
  function OperatorOf(t: Template): string {
    if t.FileOracle? then (if NeedsExpected(t.mode) then "digest_mismatch" else "invert_presence")
    else if t.JsonOracle? then (if t.jsonMode == PointerEquals then "value_mismatch" else "invert_presence")
    else "digest_mismatch"
  }

  /** A digest the template does not already demand. */
  function OtherDigest(demanded: Option<string>): string {
    if demanded == Some(ZEROS) then ONES else ZEROS
  }

  /** `_mutate`. */
  function Mutate(t: Template, operator: Option<string>): Result<Template, Error> {
    if operator.None? then Ok(t)
    else if operator.value != OperatorOf(t) then Err(UnsupportedOperator)
    else if t.FileOracle? then
      if operator.value == "invert_presence" then
        Ok(t.(mode := if t.mode == Exists then Missing else Exists, expected := None))
      else
        Ok(t.(mode := Sha256, expected := Some(OtherDigest(if t.mode == Sha256 then t.expected else None))))
    else if t.JsonOracle? then
      if operator.value == "invert_presence" then
        Ok(t.(jsonMode := if t.jsonMode == PointerExists then PointerAbsent else PointerExists, value := Null))
      else
        Ok(t.(value := Wrap(MUTATION_KEY, t.value)))
    else
      Ok(t.(sha256 := Some(OtherDigest(t.sha256))))
  }

  // ---- evaluation -------------------------------------------------------------------------------

  predicate Occurs(text: string, part: string, at: int) {
    0 <= at <= |text| - |part| && text[at..at + |part|] == part
  }

  /** `part in text`. */
  predicate Contains(text: string, part: string) {
    exists at :: 0 <= at <= |text| && Occurs(text, part, at)
  }

  function EvaluateFile(lib: Library, mode: FileMode, expected: Option<string>, entry: Entry): Evaluation
    requires NeedsExpected(mode) ==> expected.Some?
  {
    if entry.Unreadable? then Failure(Inaccessible)
    else if mode == Exists then Verdict(entry.Regular?)
    else if mode == Missing then Verdict(!entry.Regular?)
    else if entry.Nothing? then Failure(FileMissing)
    else if mode == Sha256 then Verdict(lib.sha256(entry.bytes) == expected.value)
    else if |entry.bytes| > MAX_DOCUMENT_BYTES then Failure(DocumentTooLarge)
    else match lib.decodeUtf8(entry.bytes)
      case None => Failure(NotUtf8)
      case Some(text) => Verdict(if mode == TextEquals then text == expected.value else Contains(text, expected.value))
  }

  /** `_load_bound_json`; a document that is the literal null looks like a missing file. */
  function LoadJson(lib: Library, entry: Entry): Result<Option<Json>, Error> {
    if entry.Unreadable? then Err(Inaccessible)
    else if entry.Nothing? then Ok(None)
    else if |entry.bytes| > MAX_DOCUMENT_BYTES then Err(DocumentTooLarge)
    else match lib.decodeUtf8(entry.bytes)
      case None => Err(NotUtf8)
      case Some(text) =>
        match lib.parseJson(text)
        case None => Err(InvalidJson)
        case Some(document) => Ok(if document == Null then None else Some(document))
  }

  function EvaluateJson(lib: Library, pointer: string, mode: JsonMode, value: Json, entry: Entry): Evaluation
    requires JsonPointer.ValidPointer(pointer)
  {
    var loaded := LoadJson(lib, entry);
    if loaded.Err? then Failure(loaded.error)
    else if loaded.value.None? then Failure(FileMissing)
    else
      var found := JsonPointer.Walk(loaded.value.value, JsonPointer.Decode(pointer).value);
      Verdict(if mode == PointerExists then found.Some?
              else if mode == PointerAbsent then found.None?
              else found.Some? && PyEq(found.value, value))
  }

  function EvaluateArtifact(
    lib: Library, sha256: Option<string>, minBytes: Option<int>, maxBytes: Option<int>, entry: Entry): Evaluation
  {
    match entry
    case Unreadable => Failure(Inaccessible)
    case Nothing => Failure(FileMissing)
    case Regular(bytes) =>
      Verdict(
        && (sha256.Some? ==> lib.sha256(bytes) == sha256.value)
        && (minBytes.Some? ==> |bytes| >= minBytes.value)
        && (maxBytes.Some? ==> |bytes| <= maxBytes.value))
  }

  /** A template that evaluation can use; mutation of a valid template stays within it. */
  predicate Usable(t: Template) {
    && (t.FileOracle? && NeedsExpected(t.mode) ==> t.expected.Some?)
    && (t.JsonOracle? ==> JsonPointer.ValidPointer(t.pointer))
  }

  function EvaluateTemplate(lib: Library, t: Template, files: Files): Evaluation
    requires Usable(t)
  {
    var entry := files(t.cwd, t.path);
    if t.FileOracle? then EvaluateFile(lib, t.mode, t.expected, entry)
    else if t.JsonOracle? then EvaluateJson(lib, t.pointer, t.jsonMode, t.value, entry)
    else EvaluateArtifact(lib, t.sha256, t.minBytes, t.maxBytes, entry)
  }

  /** `evaluate_oracle`, run in the working directory of the check. */
  function EvaluateOracle(lib: Library, t: Template, operator: Option<string>, files: Files): Evaluation
    requires ValidTemplate(t)
  {
    match Mutate(t, operator)
    case Err(e) => Failure(e)
    case Ok(mutated) => EvaluateTemplate(lib, mutated, files)
  }

  // ---- documents that look missing ----------------------------------------------------------------

  /** The JSON document at an entry, when it can be read at all. */
  function Document(lib: Library, entry: Entry): Option<Json> {
    if !entry.Regular? || |entry.bytes| > MAX_DOCUMENT_BYTES || lib.decodeUtf8(entry.bytes).None? then None
    else lib.parseJson(lib.decodeUtf8(entry.bytes).value)
  }

  /** A file is reported missing when nothing is there or its document is the literal null. */
  lemma {:induction false} LooksMissingIff(lib: Library, entry: Entry)
    ensures LoadJson(lib, entry) == Ok(None) <==> entry.Nothing? || Document(lib, entry) == Some(Null)
    ensures forall document :: LoadJson(lib, entry) == Ok(Some(document)) <==>
              document != Null && Document(lib, entry) == Some(document)
  {
  }

  /** So on such an entry, and on no other, a JSON oracle fails with a missing file, whatever it asks. */
  lemma {:induction false} NullDocumentLooksMissing(lib: Library, t: Template, files: Files, operator: Option<string>)
    requires ValidTemplate(t) && t.JsonOracle? && (operator == None || operator == Some(OperatorOf(t)))
    ensures EvaluateOracle(lib, t, operator, files) == Failure(FileMissing) <==>
              files(t.cwd, t.path).Nothing? || Document(lib, files(t.cwd, t.path)) == Some(Null)
  {
    LooksMissingIff(lib, files(t.cwd, t.path));
  }

  /** On a null document presence and absence of a pointer both fail; on any other readable one of them passes. */
  lemma {:induction false} PresenceIsDecidedIff(lib: Library, t: Template, files: Files)
    requires ValidTemplate(t) && t.JsonOracle? && t.jsonMode == PointerExists
    ensures var absent := t.(jsonMode := PointerAbsent);
            (EvaluateOracle(lib, t, None, files).passed <==> !EvaluateOracle(lib, absent, None, files).passed) <==>
            (Document(lib, files(t.cwd, t.path)).Some? && Document(lib, files(t.cwd, t.path)) != Some(Null))
  {
    LooksMissingIff(lib, files(t.cwd, t.path));
  }

  // ---- no oracle survives its own mutation --------------------------------------------------------

  /** Templates whose mutation invents a digest requirement the original does not have. */
  predicate DigestFree(t: Template) {
    || (t.FileOracle? && (t.mode == TextEquals || t.mode == TextContains))
    || (t.ArtifactOracle? && t.sha256.None?)
  }

  /** The file an oracle looks at hashes to 64 zeros. */
  predicate HashesToZeros(lib: Library, t: Template, files: Files) {
    var entry := files(t.cwd, t.path);
    entry.Regular? && lib.sha256(entry.bytes) == ZEROS
  }

  lemma {:induction false} ZerosAreNotOnes()
    ensures ZEROS != ONES
  {
    assert ZEROS[0] != ONES[0];
  }

  /**
   * A passing oracle still passes under its own mutation in exactly one situation: it demands no
   * digest itself and its file hashes to 64 zeros.
   */
  lemma {:induction false} SurvivesOwnMutationIff(lib: Library, t: Template, files: Files)
    requires ValidTemplate(t)
    ensures (EvaluateOracle(lib, t, None, files).passed &&
             EvaluateOracle(lib, t, Some(OperatorOf(t)), files).passed) <==>
            (EvaluateOracle(lib, t, None, files).passed && DigestFree(t) && HashesToZeros(lib, t, files))
  {
    ZerosAreNotOnes();
    if t.JsonOracle? && t.jsonMode == PointerEquals {
      var loaded := LoadJson(lib, files(t.cwd, t.path));
      if loaded.Ok? && loaded.value.Some? {
        var found := JsonPointer.Walk(loaded.value.value, JsonPointer.Decode(t.pointer).value);
        if found.Some? {
          NothingEqualsItsWrapping(found.value, t.value, MUTATION_KEY);
        }
      }
    }
  }

  /** Unless some file hashes to 64 zeros, a passing oracle fails under its own mutation. */
  lemma {:induction false} OwnMutationIsCaught(lib: Library, t: Template, files: Files)
    requires ValidTemplate(t) && !HashesToZeros(lib, t, files)
    requires EvaluateOracle(lib, t, None, files).passed
    ensures !EvaluateOracle(lib, t, Some(OperatorOf(t)), files).passed
  {
    SurvivesOwnMutationIff(lib, t, files);
  }

  /** The exception is real: were a file to hash to 64 zeros, a text oracle on it would survive. */
  lemma {:induction false} ZeroHashLetsTextOracleSurvive(text: string, bytes: Bytes)
    requires |bytes| <= MAX_DOCUMENT_BYTES
    ensures var lib := Library(_ => ZEROS, _ => Some(text), _ => None, _ => "", _ => None, _ => 0);
            var t := FileOracle("o", "f", TextEquals, Some(text), "");
            var files: Files := (_, _) => Regular(bytes);
            && ValidTemplate(t)
            && EvaluateOracle(lib, t, None, files).passed
            && EvaluateOracle(lib, t, Some(OperatorOf(t)), files).passed
  {
    var t := FileOracle("o", "f", TextEquals, Some(text), "");
    assert Split("f", '/') == ["f"] && Split("", '/') == [""];
  }

  /** Any other operator name makes the oracle fail outright. */
  lemma {:induction false} ForeignOperatorFails(lib: Library, t: Template, files: Files, operator: string)
    requires ValidTemplate(t) && operator != OperatorOf(t)
    ensures EvaluateOracle(lib, t, Some(operator), files) == Failure(UnsupportedOperator)
  {
  }

  // ---- compilation and the oracle command ---------------------------------------------------------

  const ORACLE_ARGV := ["python", "-m", "e2h.oracle_cli"]

  datatype CompileError = TooLarge

  /** `compile_oracle`. */
  function CompileOracle(lib: Library, t: Template): Result<CommandCheck, CompileError> {
    var payload := lib.render(t);
    if lib.size(payload) > MAX_SPEC_BYTES then Err(TooLarge)
    else Ok(CommandCheck(t.id, ORACLE_ARGV + [payload], t.cwd, map[], Some(30.0), {0}, false))
  }

  /** Parsing a payload yields a validated template or fails. */
  ghost predicate YieldsValid(lib: Library) {
    forall payload :: lib.parse(payload).Some? ==> ValidTemplate(lib.parse(payload).value)
  }

  /** The payload rendered for this template parses back to it. */
  predicate RoundTrips(lib: Library, t: Template) {
    lib.parse(lib.render(t)) == Some(t)
  }

  /** The exit code of `python -m e2h.oracle_cli payload`. */
  function OracleMain(lib: Library, payload: string, operator: Option<string>, files: Files): int
    requires lib.parse(payload).Some? ==> ValidTemplate(lib.parse(payload).value)
  {
    match lib.parse(payload)
    case None => 2
    case Some(t) => if EvaluateOracle(lib, t, operator, files).passed then 0 else 1
  }

  /** The compiled check exits 0, its only expected code, exactly when the oracle passes. */
  lemma {:induction false} CompiledCheckDecides(lib: Library, t: Template, operator: Option<string>, files: Files)
    requires YieldsValid(lib) && RoundTrips(lib, t) && CompileOracle(lib, t).Ok?
    ensures var check := CompileOracle(lib, t).value;
            && |check.argv| == 4
            && (OracleMain(lib, check.argv[3], operator, files) in check.expectedExitCodes
                <==> EvaluateOracle(lib, t, operator, files).passed)
  {
  }
}
