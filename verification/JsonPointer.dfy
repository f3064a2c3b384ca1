/** Finite JSON values as `json.loads` builds them, with Python's equality. */
module JsonValues {

  datatype Json =
    | Null
    | Bool(b: bool)
    | Int(i: int)
    | Float(x: real)
    | Infinite(negative: bool)
    | Str(s: string)
    | Arr(items: seq<Json>)
    | Obj(entries: map<string, Json>)

  predicate IsNumber(v: Json) {
    v.Bool? || v.Int? || v.Float?
  }

  /** In Python `True == 1 == 1.0`. */
  function NumberOf(v: Json): real
    requires IsNumber(v)
  {
    match v
    case Bool(b) => if b then 1.0 else 0.0
    case Int(i) => i as real
    case Float(x) => x
  }

  /** `a == b` on values read from JSON. */
  predicate PyEq(a: Json, b: Json) {
    if IsNumber(a) then IsNumber(b) && NumberOf(a) == NumberOf(b)
    else match a
      case Arr(items) =>
        b.Arr? && |items| == |b.items| && forall k :: 0 <= k < |items| ==> PyEq(items[k], b.items[k])
      case Obj(entries) =>
        b.Obj? && entries.Keys == b.entries.Keys && forall key :: key in entries ==> PyEq(entries[key], b.entries[key])
      case _ => a == b
  }

  /** `{key: v}`. */
  function Wrap(key: string, v: Json): Json {
    Obj(map[key := v])
  }

  /** No finite value equals both some value and that value wrapped in an object. */
  lemma {:induction false} NothingEqualsItsWrapping(v: Json, e: Json, key: string)
    ensures !(PyEq(v, e) && PyEq(v, Wrap(key, e)))
    decreases v
  {
    if PyEq(v, e) && PyEq(v, Wrap(key, e)) {
      assert key in v.entries && PyEq(v.entries[key], Wrap(key, e).entries[key]);
      var inner := e.entries[key];
      assert e.entries == map[key := inner];
      NothingEqualsItsWrapping(v.entries[key], inner, key);
    }
  }
}

/** RFC 6901 pointers: the escaping of privacy.py, the decoding and lookup of oracles.py. */
module JsonPointer {
  import opened Prelude
  import opened Models
  import opened JsonValues

  /** `text.replace(target, replacement)` for a one-character `target`. */
  function Replace(text: string, target: char, replacement: string): string {
    if text == "" then ""
    else (if text[0] == target then replacement else [text[0]]) + Replace(text[1..], target, replacement)
  }

  /** `key.replace("~", "~0").replace("/", "~1")`. */
  function Escape(key: string): string {
    Replace(Replace(key, '~', "~0"), '/', "~1")
  }

  /** `_pointer_child`. */
  function PointerChild(location: string, key: string): string {
    location + "/" + Escape(key)
  }

  /** The pointer of a whole path, from the document root. */
  function Encode(keys: seq<string>): string {
    if keys == [] then "" else PointerChild(Encode(keys[..|keys| - 1]), keys[|keys| - 1])
  }

  datatype PointerError = InvalidEscape

  /** Decoding `raw[index..]`, one escape at a time. */
  function DecodeFrom(raw: string, index: nat): Result<string, PointerError>
    requires index <= |raw|
    decreases |raw| - index
  {
    if index == |raw| then Ok("")
    else if raw[index] != '~' then Cons([raw[index]], DecodeFrom(raw, index + 1))
    else if index + 1 >= |raw| || raw[index + 1] !in {'0', '1'} then Err(InvalidEscape)
    else Cons(if raw[index + 1] == '0' then "~" else "/", DecodeFrom(raw, index + 2))
  }

  function Cons<T, E>(first: seq<T>, rest: Result<seq<T>, E>): Result<seq<T>, E> {
    match rest
    case Ok(more) => Ok(first + more)
    case Err(e) => Err(e)
  }

  lemma {:induction false} ConsTwice<T, E>(a: seq<T>, b: seq<T>, rest: Result<seq<T>, E>)
    ensures Cons(a, Cons(b, rest)) == Cons(a + b, rest)
  {
    if rest.Ok? {
      assert a + (b + rest.value) == (a + b) + rest.value;
    }
  }

  function DecodeSegments(raws: seq<string>): Result<seq<string>, PointerError> {
    if raws == [] then Ok([])
    else match DecodeFrom(raws[0], 0)
      case Err(e) => Err(e)
      case Ok(segment) => Cons([segment], DecodeSegments(raws[1..]))
  }

  /** What `_decode_pointer` returns. */
  function Decode(pointer: string): Result<seq<string>, PointerError> {
    if pointer == "" then Ok([]) else DecodeSegments(Split(pointer[1..], '/'))
  }

  /** The inner loop of `_decode_pointer`. */
  method DecodeSegment(raw: string) returns (segment: Result<string, PointerError>)
    ensures segment == DecodeFrom(raw, 0)
  {
    var index := 0;
    var decoded := "";
    assert DecodeFrom(raw, 0) == Cons("", DecodeFrom(raw, 0)) by {
      ConsNothing(DecodeFrom(raw, 0));
    }
    while index < |raw|
      invariant index <= |raw|
      invariant DecodeFrom(raw, 0) == Cons(decoded, DecodeFrom(raw, index))
    {
      if raw[index] != '~' {
        ConsTwice(decoded, [raw[index]], DecodeFrom(raw, index + 1));
        decoded := decoded + [raw[index]];
        index := index + 1;
        continue;
      }
      if index + 1 >= |raw| || raw[index + 1] !in {'0', '1'} {
        return Err(InvalidEscape);
      }
      ConsTwice(decoded, if raw[index + 1] == '0' then "~" else "/", DecodeFrom(raw, index + 2));
      decoded := decoded + (if raw[index + 1] == '0' then "~" else "/");
      index := index + 2;
    }
    assert decoded + "" == decoded;
    return Ok(decoded);
  }

  lemma {:induction false} ConsNothing<T, E>(rest: Result<seq<T>, E>)
    ensures Cons([], rest) == rest
  {
    if rest.Ok? {
      assert [] + rest.value == rest.value;
    }
  }

  /** The outer loop of `_decode_pointer`. */
  method DecodePointer(pointer: string) returns (segments: Result<seq<string>, PointerError>)
    ensures segments == Decode(pointer)
  {
    if pointer == "" {
      return Ok([]);
    }
    var raws := Split(pointer[1..], '/');
    var done: seq<string> := [];
    assert raws[0..] == raws;
    ConsNothing(DecodeSegments(raws));
    for i := 0 to |raws|
      invariant DecodeSegments(raws) == Cons(done, DecodeSegments(raws[i..]))
    {
      var segment := DecodeSegment(raws[i]);
      assert raws[i..][1..] == raws[i + 1..];
      if segment.Err? {
        return Err(segment.error);
      }
      ConsTwice(done, [segment.value], DecodeSegments(raws[i + 1..]));
      done := done + [segment.value];
    }
    assert done + [] == done;
    return Ok(done);
  }

  // ---- escaping and decoding are inverse ---------------------------------------------------------

  /** The escape of one character. */
  function EscapeChar(c: char): string {
    if c == '~' then "~0" else if c == '/' then "~1" else [c]
  }

  lemma {:induction false} ReplaceAppend(a: string, b: string, target: char, replacement: string)
    ensures Replace(a + b, target, replacement) == Replace(a, target, replacement) + Replace(b, target, replacement)
  {
    if a == "" {
      assert a + b == b;
    } else {
      assert (a + b)[1..] == a[1..] + b;
      ReplaceAppend(a[1..], b, target, replacement);
    }
  }

  /** Two chained replacements act on each character alone, because the first adds no slash. */
  lemma {:induction false} EscapeStep(key: string)
    requires key != ""
    ensures Escape(key) == EscapeChar(key[0]) + Escape(key[1..])
  {
    var first := if key[0] == '~' then "~0" else [key[0]];
    ReplaceAppend(first, Replace(key[1..], '~', "~0"), '/', "~1");
    if key[0] == '~' {
      assert Replace("~0", '/', "~1") == ['~'] + Replace("0", '/', "~1");
      assert Replace("0", '/', "~1") == ['0'] + Replace("", '/', "~1");
    } else {
      assert Replace([key[0]], '/', "~1") == EscapeChar(key[0]) + Replace("", '/', "~1");
    }
  }

  lemma {:induction false} EscapeHasNoSlash(key: string)
    ensures '/' !in Escape(key)
  {
    if key != "" {
      EscapeStep(key);
      EscapeHasNoSlash(key[1..]);
    }
  }

  /** Decoding does not look behind its index. */
  lemma {:induction false} DecodeSuffix(prefix: string, raw: string, index: nat)
    requires index <= |raw|
    ensures DecodeFrom(prefix + raw, |prefix| + index) == DecodeFrom(raw, index)
    decreases |raw| - index
  {
    if index < |raw| {
      var whole := prefix + raw;
      assert whole[|prefix| + index] == raw[index];
      if raw[index] != '~' {
        DecodeSuffix(prefix, raw, index + 1);
      } else if index + 1 < |raw| {
        assert whole[|prefix| + index + 1] == raw[index + 1];
        if raw[index + 1] in {'0', '1'} {
          DecodeSuffix(prefix, raw, index + 2);
        }
      }
    }
  }

  lemma {:induction false} DecodeEscape(key: string)
    ensures DecodeFrom(Escape(key), 0) == Ok(key)
  {
    if key != "" {
      var rest := Escape(key[1..]);
      EscapeStep(key);
      DecodeEscape(key[1..]);
      DecodeSuffix(EscapeChar(key[0]), rest, 0);
      assert [key[0]] + key[1..] == key;
    }
  }

  /** A segment without slash that decodes is the escape of what it decodes to. */
  lemma {:induction false} EscapeDecoded(raw: string, index: nat)
    requires index <= |raw| && '/' !in raw
    requires DecodeFrom(raw, index).Ok?
    ensures Escape(DecodeFrom(raw, index).value) == raw[index..]
    decreases |raw| - index
  {
    if index < |raw| {
      var step := if raw[index] != '~' then 1 else 2;
      EscapeDecoded(raw, index + step);
      var decoded := DecodeFrom(raw, index).value;
      assert decoded[1..] == DecodeFrom(raw, index + step).value;
      EscapeStep(decoded);
      assert raw[index..] == raw[index..index + step] + raw[index + step..];
      assert raw[index] != '/';
    }
  }

  // ---- splitting ---------------------------------------------------------------------------------

  lemma {:induction false} SplitAtAppend(a: string, b: string, from: nat)
    requires from <= |a| && '/' !in a
    ensures SplitAt(a + "/" + b, '/', from) == |a|
    decreases |a| - from
  {
    var whole := a + "/" + b;
    if from < |a| {
      assert whole[from] == a[from];
      SplitAtAppend(a, b, from + 1);
    }
  }

  lemma {:induction false} SplitNoSeparator(a: string)
    requires '/' !in a
    ensures Split(a, '/') == [a]
  {
    var at := SplitAt(a, '/', 0);
    assert a[..at] <= a;
  }

  /** A text with a separator splits into the part before the first one and the split of the rest. */
  lemma {:induction false} SplitOnce(head: string, tail: string)
    requires '/' !in head
    ensures Split(head + "/" + tail, '/') == [head] + Split(tail, '/')
  {
    var whole := head + "/" + tail;
    SplitAtAppend(head, tail, 0);
    assert whole[..|head|] == head && whole[|head| + 1..] == tail;
  }

  /** Appending one more segment appends one more part. */
  lemma {:induction false} SplitSnoc(s: string, last: string)
    requires '/' !in last
    ensures Split(s + "/" + last, '/') == Split(s, '/') + [last]
    decreases |s|
  {
    var at := SplitAt(s, '/', 0);
    if at == |s| {
      SplitOnce(s, last);
      SplitNoSeparator(last);
    } else {
      var head, tail := s[..at], s[at + 1..];
      assert s + "/" + last == head + "/" + (tail + "/" + last);
      SplitOnce(head, tail + "/" + last);
      SplitSnoc(tail, last);
    }
  }

  lemma {:induction false} DecodeSegmentsSnoc(raws: seq<string>, raw: string)
    ensures DecodeSegments(raws + [raw]) ==
              (match DecodeSegments(raws)
               case Err(e) => Err(e)
               case Ok(done) => (match DecodeFrom(raw, 0)
                                 case Err(e) => Err(e)
                                 case Ok(segment) => Ok(done + [segment])))
  {
    if raws == [] {
      assert raws + [raw] == [raw] && [raw][1..] == [];
      match DecodeFrom(raw, 0) {
        case Err(_) =>
        case Ok(segment) => assert [segment] + [] == [] + [segment];
      }
    } else {
      assert (raws + [raw])[1..] == raws[1..] + [raw];
      DecodeSegmentsSnoc(raws[1..], raw);
      var first, rest, last := DecodeFrom(raws[0], 0), DecodeSegments(raws[1..]), DecodeFrom(raw, 0);
      if first.Ok? && rest.Ok? && last.Ok? {
        assert [first.value] + (rest.value + [last.value]) == ([first.value] + rest.value) + [last.value];
      }
    }
  }

  // ---- the round trips ---------------------------------------------------------------------------

  /** Decoding a child pointer decodes the parent and adds the key. */
  lemma {:induction false} DecodeChild(location: string, key: string)
    requires location == "" || location[0] == '/'
    ensures Decode(PointerChild(location, key)) ==
              (match Decode(location) case Err(e) => Err(e) case Ok(keys) => Ok(keys + [key]))
  {
    var child := PointerChild(location, key);
    EscapeHasNoSlash(key);
    DecodeEscape(key);
    if location == "" {
      assert child[1..] == Escape(key);
      SplitNoSeparator(Escape(key));
      DecodeSegmentsSnoc([], Escape(key));
      assert [] + [Escape(key)] == [Escape(key)];
    } else {
      assert child[1..] == location[1..] + "/" + Escape(key);
      SplitSnoc(location[1..], Escape(key));
      DecodeSegmentsSnoc(Split(location[1..], '/'), Escape(key));
    }
  }

  /** Every key sequence survives encoding and decoding. */
  lemma {:induction false} DecodeEncode(keys: seq<string>)
    ensures Decode(Encode(keys)) == Ok(keys)
    ensures Encode(keys) == "" || Encode(keys)[0] == '/'
  {
    if keys != [] {
      var n := |keys| - 1;
      DecodeEncode(keys[..n]);
      DecodeChild(Encode(keys[..n]), keys[n]);
      assert keys[..n] + [keys[n]] == keys;
    }
  }

  /** `JsonOracle.pointer_must_be_valid`. */
  predicate ValidPointer(pointer: string) {
    (pointer == "" || pointer[0] == '/') && Decode(pointer).Ok?
  }

  lemma {:induction false} EncodeCons(key: string, keys: seq<string>)
    ensures Encode([key] + keys) == "/" + Escape(key) + Encode(keys)
  {
    var all := [key] + keys;
    if keys == [] {
      assert all[..0] == [] && Encode(all[..0]) == "";
      assert "" + "/" + Escape(key) == "/" + Escape(key) + "";
    } else {
      var n := |keys| - 1;
      assert all[..n + 1] == [key] + keys[..n];
      EncodeCons(key, keys[..n]);
    }
  }

  lemma {:induction false} EncodeDecodedSegment(raw: string, raws: seq<string>)
    requires '/' !in raw && DecodeSegments([raw] + raws).Ok?
    ensures DecodeSegments(raws).Ok?
    ensures Encode(DecodeSegments([raw] + raws).value) == "/" + raw + Encode(DecodeSegments(raws).value)
  {
    assert ([raw] + raws)[1..] == raws && raw[0..] == raw;
    EscapeDecoded(raw, 0);
    EncodeCons(DecodeFrom(raw, 0).value, DecodeSegments(raws).value);
  }

  /** The first part of a split, and the rest. */
  lemma {:induction false} SplitFirst(body: string)
    ensures var at := SplitAt(body, '/', 0);
            && '/' !in body[..at]
            && Split(body, '/') == [body[..at]] + if at == |body| then [] else Split(body[at + 1..], '/')
  {
    var at := SplitAt(body, '/', 0);
    assert body[..|body|] == body;
  }

  lemma {:induction false} Rejoin(body: string, at: nat)
    requires at < |body| && body[at] == '/'
    ensures "/" + body[..at] + ("/" + body[at + 1..]) == "/" + body
  {
    assert body == body[..at] + ("/" + body[at + 1..]);
  }

  lemma {:induction false} EncodeDecodedBody(body: string)
    requires DecodeSegments(Split(body, '/')).Ok?
    ensures Encode(DecodeSegments(Split(body, '/')).value) == "/" + body
    decreases |body|
  {
    var at := SplitAt(body, '/', 0);
    SplitFirst(body);
    if at == |body| {
      EncodeDecodedSegment(body[..at], []);
      assert body[..at] == body;
    } else {
      EncodeDecodedSegment(body[..at], Split(body[at + 1..], '/'));
      EncodeDecodedBody(body[at + 1..]);
      Rejoin(body, at);
    }
  }

  /** Every valid pointer survives decoding and encoding. */
  lemma {:induction false} EncodeDecode(pointer: string)
    requires ValidPointer(pointer)
    ensures Encode(Decode(pointer).value) == pointer
  {
    if pointer != "" {
      EncodeDecodedBody(pointer[1..]);
    }
  }

  // ---- lookup ------------------------------------------------------------------------------------

  predicate AllDigits(s: string) {
    s != "" && forall i :: 0 <= i < |s| ==> '0' <= s[i] <= '9'
  }

  function Number(s: string): nat
    requires forall i :: 0 <= i < |s| ==> '0' <= s[i] <= '9'
  {
    if s == "" then 0 else 10 * Number(s[..|s| - 1]) + (s[|s| - 1] as int - '0' as int)
  }

  /** One reference token against one value, section 4 of RFC 6901. */
  function Step(value: Json, segment: string): Option<Json> {
    match value
    case Obj(entries) => if segment in entries then Some(entries[segment]) else None
    case Arr(items) =>
      if !AllDigits(segment) || (|segment| > 1 && segment[0] == '0') then None
      else if Number(segment) >= |items| then None
      else Some(items[Number(segment)])
    case _ => None
  }

  function Walk(value: Json, segments: seq<string>): Option<Json> {
    if segments == [] then Some(value)
    else match Step(value, segments[0])
      case None => None
      case Some(next) => Walk(next, segments[1..])
  }

  /** `_lookup_pointer` on a pointer already validated: `None` means not found. */
  method LookupPointer(document: Json, pointer: string) returns (found: Option<Json>)
    requires Decode(pointer).Ok?
    ensures found == Walk(document, Decode(pointer).value)
  {
    var decoded := DecodePointer(pointer);
    var segments := decoded.value;
    var value := document;
    assert segments[0..] == segments;
    for i := 0 to |segments|
      invariant Walk(document, segments) == Walk(value, segments[i..])
    {
      assert segments[i..][1..] == segments[i + 1..];
      var next := Step(value, segments[i]);
      if next.None? {
        return None;
      }
      value := next.value;
    }
    return Some(value);
  }

  lemma {:induction false} WalkSnoc(value: Json, segments: seq<string>, last: string)
    ensures Walk(value, segments + [last]) ==
              (match Walk(value, segments) case None => None case Some(parent) => Step(parent, last))
  {
    if segments == [] {
      assert [] + [last] == [last];
      assert [last][1..] == [];
    } else {
      assert (segments + [last])[1..] == segments[1..] + [last];
      match Step(value, segments[0]) {
        case None =>
        case Some(next) => WalkSnoc(next, segments[1..], last);
      }
    }
  }

  /** Looking up a child pointer is one step after looking up its parent. */
  lemma {:induction false} LookupChild(document: Json, location: string, key: string)
    requires ValidPointer(location)
    ensures ValidPointer(PointerChild(location, key))
    ensures Walk(document, Decode(PointerChild(location, key)).value) ==
              (match Walk(document, Decode(location).value) case None => None case Some(parent) => Step(parent, key))
  {
    DecodeChild(location, key);
    WalkSnoc(document, Decode(location).value, key);
  }
}
