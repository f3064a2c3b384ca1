/**
 * When an oracle passes, in terms of what is in the workspace: what a pointer leads to in a document,
 * which JSON values are equal, and what each kind of template asks of the entry at its path.
 */
module JsonMeaning {
  import opened Prelude
  import opened JsonValues
  import opened JsonPointer

  // ---- equality -------------------------------------------------------------------------------------

  /** The same value with every truth value and integer read as the number it is. */
  function Normal(v: Json): Json
    decreases v
  {
    match v
    case Bool(b) => Float(if b then 1.0 else 0.0)
    case Int(i) => Float(i as real)
    case Arr(items) => Arr(seq(|items|, k requires 0 <= k < |items| => Normal(items[k])))
    case Obj(entries) => Obj(map key | key in entries :: Normal(entries[key]))
    case _ => v
  }

  /** Two values are equal exactly when they are the same value in this reading. */
  lemma {:induction false} EqualIffSameNormal(a: Json, b: Json)
    ensures PyEq(a, b) <==> Normal(a) == Normal(b)
    decreases a
  {
    if a.Arr? && b.Arr? {
      ArraysEqualIff(a, b);
    } else if a.Obj? && b.Obj? {
      ObjectsEqualIff(a, b);
    }
  }

  lemma {:induction false} ArraysEqualIff(a: Json, b: Json)
    requires a.Arr? && b.Arr?
    ensures PyEq(a, b) <==> Normal(a) == Normal(b)
    decreases a, 0
  {
    forall k | 0 <= k < |a.items| && k < |b.items|
      ensures PyEq(a.items[k], b.items[k]) <==> Normal(a.items[k]) == Normal(b.items[k])
    {
      EqualIffSameNormal(a.items[k], b.items[k]);
    }
    if Normal(a) == Normal(b) {
      assert |a.items| == |Normal(a).items| && |b.items| == |Normal(b).items|;
      forall k | 0 <= k < |a.items| ensures PyEq(a.items[k], b.items[k]) {
        assert Normal(a).items[k] == Normal(b).items[k];
      }
    }
  }

  lemma {:induction false} ObjectsEqualIff(a: Json, b: Json)
    requires a.Obj? && b.Obj?
    ensures PyEq(a, b) <==> Normal(a) == Normal(b)
    decreases a, 0
  {
    forall key | key in a.entries && key in b.entries
      ensures PyEq(a.entries[key], b.entries[key]) <==> Normal(a.entries[key]) == Normal(b.entries[key])
    {
      EqualIffSameNormal(a.entries[key], b.entries[key]);
    }
    if Normal(a) == Normal(b) {
      assert a.entries.Keys == Normal(a).entries.Keys && b.entries.Keys == Normal(b).entries.Keys;
      forall key | key in a.entries ensures PyEq(a.entries[key], b.entries[key]) {
        assert Normal(a).entries[key] == Normal(b).entries[key];
      }
    }
  }

  // ---- pointers -------------------------------------------------------------------------------------

  function Digit(n: nat): char
    requires n < 10
  {
    ('0' as int + n) as char
  }

  /** The decimal numeral of an index, without leading zeros. */
  function Decimal(n: nat): string {
    if n < 10 then [Digit(n)] else Decimal(n / 10) + [Digit(n % 10)]
  }

  /** The keys lead from the document to the value: object keys by name, array elements by their numeral. */
  ghost predicate LeadsTo(document: Json, keys: seq<string>, v: Json)
    decreases keys
  {
    if keys == [] then v == document
    else match document
      case Obj(entries) => keys[0] in entries && LeadsTo(entries[keys[0]], keys[1..], v)
      case Arr(items) => exists i :: 0 <= i < |items| && keys[0] == Decimal(i) && LeadsTo(items[i], keys[1..], v)
      case _ => false
  }

  /** The pointer is the encoding of keys that lead to the value. */
  ghost predicate Points(document: Json, pointer: string, v: Json) {
    exists keys :: pointer == Encode(keys) && LeadsTo(document, keys, v)
  }

  lemma {:induction false} DecimalIsCanonical(n: nat)
    ensures AllDigits(Decimal(n)) && Number(Decimal(n)) == n
    ensures |Decimal(n)| > 1 ==> Decimal(n)[0] != '0'
    ensures n > 0 ==> Decimal(n)[0] != '0'
  {
    if n >= 10 {
      DecimalIsCanonical(n / 10);
      assert Decimal(n)[..|Decimal(n)| - 1] == Decimal(n / 10);
    } else {
      assert [Digit(n)][..0] == "";
    }
  }

  lemma {:induction false} CanonicalIsDecimal(s: string)
    requires AllDigits(s) && (|s| > 1 ==> s[0] != '0')
    ensures s == Decimal(Number(s))
    ensures s[0] != '0' ==> Number(s) > 0
    decreases |s|
  {
    var n, last := |s| - 1, s[|s| - 1];
    if n == 0 {
      assert s[..0] == "" && s == [last];
    } else {
      CanonicalIsDecimal(s[..n]);
      assert Number(s) == 10 * Number(s[..n]) + (last as int - '0' as int);
      assert s == s[..n] + [last];
    }
  }

  /** A token selects the element whose index it writes in decimal, and no other. */
  lemma {:induction false} IndexToken(items: seq<Json>, token: string)
    ensures Step(Arr(items), token).Some? <==> exists i :: 0 <= i < |items| && token == Decimal(i)
    ensures forall i :: 0 <= i < |items| && token == Decimal(i) ==> Step(Arr(items), token) == Some(items[i])
  {
    forall i | 0 <= i < |items| && token == Decimal(i) ensures Step(Arr(items), token) == Some(items[i]) {
      DecimalIsCanonical(i);
    }
    if Step(Arr(items), token).Some? {
      CanonicalIsDecimal(token);
      assert token == Decimal(Number(token));
    }
  }

  lemma {:induction false} WalkLeadsTo(document: Json, keys: seq<string>, v: Json)
    ensures Walk(document, keys) == Some(v) <==> LeadsTo(document, keys, v)
    decreases keys
  {
    if keys != [] {
      match document {
        case Obj(entries) =>
          if keys[0] in entries {
            WalkLeadsTo(entries[keys[0]], keys[1..], v);
          }
        case Arr(items) =>
          IndexToken(items, keys[0]);
          forall i | 0 <= i < |items| && keys[0] == Decimal(i)
            ensures Walk(document, keys) == Some(v) <==> LeadsTo(items[i], keys[1..], v)
          {
            WalkLeadsTo(items[i], keys[1..], v);
          }
        case _ =>
      }
    }
  }

  /** Looking up a valid pointer finds exactly what it points to. */
  lemma {:induction false} WalkIffPoints(document: Json, pointer: string, v: Json)
    requires ValidPointer(pointer)
    ensures Walk(document, Decode(pointer).value) == Some(v) <==> Points(document, pointer, v)
  {
    EncodeDecode(pointer);
    WalkLeadsTo(document, Decode(pointer).value, v);
    forall keys | pointer == Encode(keys) ensures keys == Decode(pointer).value {
      DecodeEncode(keys);
    }
  }

  lemma {:induction false} ReplaceOne(a: string, b: string, target: char, replacement: string)
    requires target !in a
    ensures Replace(a + [target] + b, target, replacement) == a + replacement + Replace(b, target, replacement)
  {
    if a == "" {
      assert ([target] + b)[1..] == b && a + [target] + b == [target] + b;
      assert a + replacement + Replace(b, target, replacement) == replacement + Replace(b, target, replacement);
    } else {
      assert (a + [target] + b)[1..] == a[1..] + [target] + b;
      ReplaceOne(a[1..], b, target, replacement);
      assert a == [a[0]] + a[1..];
    }
  }

  lemma {:induction false} ReplaceNone(a: string, target: char, replacement: string)
    requires target !in a
    ensures Replace(a, target, replacement) == a
  {
    if a != "" {
      ReplaceNone(a[1..], target, replacement);
      assert a == [a[0]] + a[1..];
    }
  }

  /** The escapes of section 3 of RFC 6901, read off whole keys. */
  lemma {:induction false} EscapesOfKeys(a: string, b: string)
    requires '~' !in a && '/' !in a && '~' !in b && '/' !in b
    ensures Encode([a]) == "/" + a
    ensures Encode([a + "~" + b]) == "/" + (a + "~0" + b)
    ensures Encode([a + "/" + b]) == "/" + (a + "~1" + b)
    ensures Encode([a, b]) == "/" + a + "/" + b
  {
    ReplaceNone(a, '~', "~0");
    ReplaceNone(a, '/', "~1");
    ReplaceNone(b, '~', "~0");
    ReplaceNone(b, '/', "~1");
    ReplaceOne(a, b, '~', "~0");
    ReplaceNone(a + "~0" + b, '/', "~1");
    ReplaceNone(a + "/" + b, '~', "~0");
    ReplaceOne(a, b, '/', "~1");
    assert forall key: string :: [key][..0] == [];
    assert [a, b][..1] == [a];
  }
}

module OracleMeaning {
  import opened Prelude
  import opened Models
  import opened JsonValues
  import opened JsonMeaning
  import opened Oracles
  import JsonPointer

  // ---- what is at the path --------------------------------------------------------------------------

  /** A regular file within the limit whose bytes decode to this text. */
  predicate Reads(lib: Library, entry: Entry, text: string) {
    entry.Regular? && |entry.bytes| <= MAX_DOCUMENT_BYTES && lib.decodeUtf8(entry.bytes) == Some(text)
  }

  /** A document other than null. */
  ghost predicate ReadsDocument(lib: Library, entry: Entry, document: Json) {
    document != Null && exists text :: Reads(lib, entry, text) && lib.parseJson(text) == Some(document)
  }

  predicate HashesTo(lib: Library, entry: Entry, digest: string) {
    entry.Regular? && lib.sha256(entry.bytes) == digest
  }

  predicate SizeWithin(entry: Entry, minBytes: Option<int>, maxBytes: Option<int>) {
    && entry.Regular?
    && (minBytes.Some? ==> minBytes.value <= |entry.bytes|)
    && (maxBytes.Some? ==> |entry.bytes| <= maxBytes.value)
  }

  /** The pointer leads somewhere in the document. */
  ghost predicate Leads(document: Json, pointer: string) {
    exists v :: Points(document, pointer, v)
  }

  /** It leads to a value that equals this one. */
  ghost predicate LeadsToEqual(document: Json, pointer: string, value: Json) {
    exists v :: Points(document, pointer, v) && Normal(v) == Normal(value)
  }

  // ---- when an oracle passes ------------------------------------------------------------------------

  /** What the template asks of the entry at its path. */
  ghost predicate Satisfied(lib: Library, t: Template, entry: Entry) {
    match t
    case FileOracle(_, _, mode, expected, _) =>
      (match mode
       case Exists => entry.Regular?
       case Missing => entry.Nothing?
       case TextEquals => expected.Some? && Reads(lib, entry, expected.value)
       case TextContains => expected.Some? && exists a, b :: Reads(lib, entry, a + expected.value + b)
       case Sha256 => expected.Some? && HashesTo(lib, entry, expected.value))
    case JsonOracle(_, _, pointer, mode, value, _) =>
      exists document :: ReadsDocument(lib, entry, document) &&
        (match mode
         case PointerExists => Leads(document, pointer)
         case PointerAbsent => !Leads(document, pointer)
         case PointerEquals => LeadsToEqual(document, pointer, value))
    case ArtifactOracle(_, _, sha256, minBytes, maxBytes, _) =>
      && (sha256.Some? ==> HashesTo(lib, entry, sha256.value))
      && SizeWithin(entry, minBytes, maxBytes)
  }

  lemma {:induction false} ContainsIff(text: string, part: string)
    ensures Contains(text, part) <==> exists a, b :: text == a + part + b
  {
    if Contains(text, part) {
      var at :| 0 <= at <= |text| && Occurs(text, part, at);
      assert text == text[..at] + part + text[at + |part|..];
    }
    if a, b :| text == a + part + b {
      assert text[|a|..|a| + |part|] == part;
      assert Occurs(text, part, |a|);
    }
  }

  lemma {:induction false} FilePassesIff(lib: Library, t: Template, files: Files)
    requires ValidTemplate(t) && t.FileOracle?
    ensures EvaluateOracle(lib, t, None, files).passed <==> Satisfied(lib, t, files(t.cwd, t.path))
  {
    var entry := files(t.cwd, t.path);
    if t.mode == TextContains && entry.Regular? && lib.decodeUtf8(entry.bytes).Some? {
      var text := lib.decodeUtf8(entry.bytes).value;
      ContainsIff(text, t.expected.value);
      assert Contains(text, t.expected.value) && |entry.bytes| <= MAX_DOCUMENT_BYTES <==>
               exists a, b :: Reads(lib, entry, a + t.expected.value + b);
    }
  }

  lemma {:induction false} FoundIff(document: Json, pointer: string, value: Json)
    requires JsonPointer.ValidPointer(pointer)
    ensures var found := JsonPointer.Walk(document, JsonPointer.Decode(pointer).value);
            && (found.Some? <==> Leads(document, pointer))
            && (found.Some? && PyEq(found.value, value) <==> LeadsToEqual(document, pointer, value))
  {
    var found := JsonPointer.Walk(document, JsonPointer.Decode(pointer).value);
    forall v ensures found == Some(v) <==> Points(document, pointer, v) {
      WalkIffPoints(document, pointer, v);
    }
    if found.Some? {
      EqualIffSameNormal(found.value, value);
    }
  }

  lemma {:induction false} LoadedIff(lib: Library, entry: Entry, document: Json)
    ensures LoadJson(lib, entry) == Ok(Some(document)) <==> ReadsDocument(lib, entry, document)
  {
  }

  lemma {:induction false} JsonPassesIff(lib: Library, t: Template, files: Files)
    requires ValidTemplate(t) && t.JsonOracle?
    ensures EvaluateOracle(lib, t, None, files).passed <==> Satisfied(lib, t, files(t.cwd, t.path))
  {
    var entry := files(t.cwd, t.path);
    forall document ensures LoadJson(lib, entry) == Ok(Some(document)) <==> ReadsDocument(lib, entry, document) {
      LoadedIff(lib, entry, document);
    }
    if LoadJson(lib, entry).Ok? && LoadJson(lib, entry).value.Some? {
      FoundIff(LoadJson(lib, entry).value.value, t.pointer, t.value);
    }
  }

  /** An oracle passes exactly when the workspace satisfies its template. */
  lemma {:induction false} PassesIff(lib: Library, t: Template, files: Files)
    requires ValidTemplate(t)
    ensures EvaluateOracle(lib, t, None, files).passed <==> Satisfied(lib, t, files(t.cwd, t.path))
  {
    if t.FileOracle? {
      FilePassesIff(lib, t, files);
    } else if t.JsonOracle? {
      JsonPassesIff(lib, t, files);
    }
  }

  // ---- when a mutated oracle passes -----------------------------------------------------------------

  /** What the template asks under a mutation operator; any other operator is an error. */
  ghost predicate MutantSatisfied(lib: Library, t: Template, operator: string, entry: Entry) {
    match operator
    case "invert_presence" =>
      (t.FileOracle? && t.mode == Exists && entry.Nothing?)
      || (t.FileOracle? && t.mode == Missing && entry.Regular?)
      || (t.JsonOracle? && t.jsonMode == PointerExists &&
            exists document :: ReadsDocument(lib, entry, document) && !Leads(document, t.pointer))
      || (t.JsonOracle? && t.jsonMode == PointerAbsent &&
            exists document :: ReadsDocument(lib, entry, document) && Leads(document, t.pointer))
    case "value_mismatch" =>
      t.JsonOracle? && t.jsonMode == PointerEquals &&
        exists document :: ReadsDocument(lib, entry, document) &&
          LeadsToEqual(document, t.pointer, Obj(map["__e2h_mutation__" := t.value]))
    case "digest_mismatch" =>
      (t.FileOracle? && (t.mode == TextEquals || t.mode == TextContains) && HashesTo(lib, entry, ZEROS))
      || (t.FileOracle? && t.mode == Sha256 && HashesTo(lib, entry, if t.expected == Some(ZEROS) then ONES else ZEROS))
      || (t.ArtifactOracle? && HashesTo(lib, entry, if t.sha256 == Some(ZEROS) then ONES else ZEROS)
            && SizeWithin(entry, t.minBytes, t.maxBytes))
    case _ => false
  }

  lemma {:induction false} MutantIsValid(t: Template, operator: string)
    requires ValidTemplate(t) && Mutate(t, Some(operator)).Ok?
    ensures var mutant := Mutate(t, Some(operator)).value;
            ValidTemplate(mutant) && mutant.path == t.path && mutant.cwd == t.cwd
  {
    assert IsDigest(ZEROS) && IsDigest(ONES);
  }

  lemma {:induction false} FileMutantIff(lib: Library, t: Template, operator: string, entry: Entry)
    requires t.FileOracle? && operator == OperatorOf(t)
    ensures Satisfied(lib, Mutate(t, Some(operator)).value, entry) <==> MutantSatisfied(lib, t, operator, entry)
  {
  }

  lemma {:induction false} OtherMutantIff(lib: Library, t: Template, operator: string, entry: Entry)
    requires !t.FileOracle? && operator == OperatorOf(t)
    ensures Satisfied(lib, Mutate(t, Some(operator)).value, entry) <==> MutantSatisfied(lib, t, operator, entry)
  {
  }

  lemma {:induction false} ForeignOperatorIsUnsatisfied(lib: Library, t: Template, operator: string, entry: Entry)
    requires operator != OperatorOf(t)
    ensures !MutantSatisfied(lib, t, operator, entry)
  {
  }

  /** Under an operator an oracle passes exactly when the workspace satisfies the mutated demand. */
  lemma {:induction false} MutantPassesIff(lib: Library, t: Template, operator: string, files: Files)
    requires ValidTemplate(t)
    ensures EvaluateOracle(lib, t, Some(operator), files).passed <==>
              MutantSatisfied(lib, t, operator, files(t.cwd, t.path))
  {
    var entry := files(t.cwd, t.path);
    if operator != OperatorOf(t) {
      ForeignOperatorIsUnsatisfied(lib, t, operator, entry);
    } else {
      MutantIsValid(t, operator);
      PassesIff(lib, Mutate(t, Some(operator)).value, files);
      if t.FileOracle? {
        FileMutantIff(lib, t, operator, entry);
      } else {
        OtherMutantIff(lib, t, operator, entry);
      }
    }
  }

  /** The command of a compiled oracle exits zero exactly when the workspace satisfies what it is asked. */
  lemma {:induction false} CompiledCheckExits(lib: Library, t: Template, operator: Option<string>, files: Files)
    requires YieldsValid(lib) && RoundTrips(lib, t) && CompileOracle(lib, t).Ok?
    ensures var check := CompileOracle(lib, t).value;
            && check.id == t.id && check.cwd == t.cwd && check.env == map[] && !check.continueOnFailure
            && |check.argv| == 4 && check.expectedExitCodes == {0}
            && (OracleMain(lib, check.argv[3], operator, files) == 0 <==>
                  if operator.None? then Satisfied(lib, t, files(t.cwd, t.path))
                  else MutantSatisfied(lib, t, operator.value, files(t.cwd, t.path)))
  {
    CompiledCheckDecides(lib, t, operator, files);
    PassesIff(lib, t, files);
    if operator.Some? {
      MutantPassesIff(lib, t, operator.value, files);
    }
  }
}
