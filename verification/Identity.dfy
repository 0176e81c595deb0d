/**
 Stable logical identities of models and sources
 (crates/phlo-transform-core/src/identity.rs).
 */
module Identity {
  import opened Wrappers
  import opened Ordering

  datatype ModelId = ModelId(ns: string, path: seq<string>)

  datatype SourceId = SourceId(parts: seq<string>)

  datatype IdentityError =
    | MissingPath(text: string)
    | EmptyPath
    | InvalidSegment(segment: string)

  function Join(parts: seq<string>, separator: char): string {
    if parts == [] then ""
    else if |parts| == 1 then parts[0]
    else parts[0] + [separator] + Join(parts[1..], separator)
  }

  /** `str::split` on one character: always at least one part. */
  function Split(text: string, separator: char): (parts: seq<string>)
    ensures |parts| >= 1
  {
    if text == "" then [""]
    else
      var rest := Split(text[1..], separator);
      if text[0] == separator then [""] + rest
      else [[text[0]] + rest[0]] + rest[1..]
  }

  function Replace(text: string, from: char, to: char): (r: string)
    ensures |r| == |text|
    ensures forall i :: 0 <= i < |text| ==> r[i] == (if text[i] == from then to else text[i])
  {
    if text == "" then "" else [if text[0] == from then to else text[0]] + Replace(text[1..], from, to)
  }

  predicate IsWhitespace(c: char) {
    || '\U{0009}' <= c <= '\U{000D}' || c == ' ' || c == '\U{0085}' || c == '\U{00A0}' || c == '\U{1680}'
    || '\U{2000}' <= c <= '\U{200A}' || c == '\U{2028}' || c == '\U{2029}' || c == '\U{202F}'
    || c == '\U{205F}' || c == '\U{3000}'
  }

  function TrimStart(text: string): string {
    if text != "" && IsWhitespace(text[0]) then TrimStart(text[1..]) else text
  }

  function TrimEnd(text: string): string {
    if text != "" && IsWhitespace(text[|text| - 1]) then TrimEnd(text[..|text| - 1]) else text
  }

  function Trim(text: string): string {
    TrimEnd(TrimStart(text))
  }

  predicate IsSegmentChar(c: char) {
    'a' <= c <= 'z' || 'A' <= c <= 'Z' || '0' <= c <= '9' || c == '_' || c == '-'
  }

  predicate IsSegment(segment: string) {
    segment != "" && forall i :: 0 <= i < |segment| ==> IsSegmentChar(segment[i])
  }

  predicate IsModelId(id: ModelId) {
    IsSegment(id.ns) && id.path != [] && forall i :: 0 <= i < |id.path| ==> IsSegment(id.path[i])
  }

  function FirstInvalid(path: seq<string>): (r: Option<string>)
    ensures r.None? <==> forall i :: 0 <= i < |path| ==> IsSegment(path[i])
    ensures r.Some? ==> r.value in path && !IsSegment(r.value)
  {
    if path == [] then None
    else if !IsSegment(path[0]) then Some(path[0])
    else
      assert path == [path[0]] + path[1..];
      FirstInvalid(path[1..])
  }

  function NewModelId(ns: string, path: seq<string>): (r: Result<ModelId, IdentityError>)
    ensures r.Ok? <==> IsModelId(ModelId(ns, path))
    ensures r.Ok? ==> r.value == ModelId(ns, path)
  {
    if !IsSegment(ns) then Err(InvalidSegment(ns))
    else if path == [] then Err(EmptyPath)
    else
      match FirstInvalid(path)
      case Some(segment) => Err(InvalidSegment(segment))
      case None => Ok(ModelId(ns, path))
  }

  const URI_SCHEME := "model://"

  /** The dotted text a model reference stands for: trimmed, and with a URI's slashes read as dots. */
  function DottedForm(text: string): string {
    var trimmed := Trim(text);
    if URI_SCHEME <= trimmed then Replace(trimmed[|URI_SCHEME|..], '/', '.') else trimmed
  }

  function ParseModelId(text: string): (r: Result<ModelId, IdentityError>) {
    var value := DottedForm(text);
    var parts := Split(value, '.');
    if |parts| < 2 then Err(MissingPath(value)) else NewModelId(parts[0], parts[1..])
  }

  function Segments(id: ModelId): seq<string> {
    [id.ns] + id.path
  }

  function LocalName(id: ModelId): string {
    Join(id.path, '.')
  }

  function LogicalName(id: ModelId): string {
    id.ns + "." + LocalName(id)
  }

  function ModelUri(id: ModelId): string {
    URI_SCHEME + id.ns + "/" + Join(id.path, '/')
  }

  function SourceName(id: SourceId): string {
    Join(id.parts, '.')
  }

  /** The derived order of identities: namespace first, then path. */
  predicate ModelLess(a: ModelId, b: ModelId) {
    PathLess(Segments(a), Segments(b))
  }

  lemma ModelLessTotal()
    ensures StrictTotal(ModelLess)
  {
    PathLessTotal();
    forall a: ModelId, b: ModelId ensures a == b || ModelLess(a, b) || ModelLess(b, a) {
      if Segments(a) == Segments(b) {
        assert a.ns == Segments(a)[0] && a.path == Segments(a)[1..];
        assert b.ns == Segments(b)[0] && b.path == Segments(b)[1..];
      }
    }
  }

  // -- Splitting undoes joining ---------------------------------------------

  predicate Free(text: string, c: char) {
    forall i :: 0 <= i < |text| ==> text[i] != c
  }

  lemma {:induction false} SplitHead(head: string, rest: string, separator: char)
    requires Free(head, separator)
    ensures Split(head + [separator] + rest, separator) == [head] + Split(rest, separator)
  {
    var text := head + [separator] + rest;
    if head == "" {
      assert text[1..] == rest;
    } else {
      SplitHead(head[1..], rest, separator);
      assert text[1..] == head[1..] + [separator] + rest;
      assert [head[0]] + head[1..] == head;
    }
  }

  lemma {:induction false} SplitOne(text: string, separator: char)
    requires Free(text, separator)
    ensures Split(text, separator) == [text]
  {
    if text != "" {
      SplitOne(text[1..], separator);
      assert [text[0]] + text[1..] == text;
    }
  }

  /** Splitting a joined list at its separator gives the list back. */
  lemma {:induction false} SplitJoin(parts: seq<string>, separator: char)
    requires parts != [] && forall i :: 0 <= i < |parts| ==> Free(parts[i], separator)
    ensures Split(Join(parts, separator), separator) == parts
  {
    if |parts| == 1 {
      SplitOne(parts[0], separator);
    } else {
      SplitJoin(parts[1..], separator);
      SplitHead(parts[0], Join(parts[1..], separator), separator);
      assert [parts[0]] + parts[1..] == parts;
    }
  }

  lemma {:induction false} JoinInjective(a: seq<string>, b: seq<string>, separator: char)
    requires a != [] && forall i :: 0 <= i < |a| ==> Free(a[i], separator)
    requires b != [] && forall i :: 0 <= i < |b| ==> Free(b[i], separator)
    requires Join(a, separator) == Join(b, separator)
    ensures a == b
  {
    SplitJoin(a, separator);
    SplitJoin(b, separator);
  }

  lemma LogicalNameIsJoin(id: ModelId)
    requires id.path != []
    ensures LogicalName(id) == Join(Segments(id), '.')
    ensures ModelUri(id) == URI_SCHEME + Join(Segments(id), '/')
  {
    assert Segments(id)[1..] == id.path;
    assert URI_SCHEME + id.ns + "/" + Join(id.path, '/') == URI_SCHEME + (id.ns + ['/'] + Join(id.path, '/'));
  }

  /** Logical names identify models. */
  lemma LogicalNameInjective(a: ModelId, b: ModelId)
    requires IsModelId(a) && IsModelId(b)
    requires LogicalName(a) == LogicalName(b)
    ensures a == b
  {
    LogicalNameIsJoin(a);
    LogicalNameIsJoin(b);
    JoinInjective(Segments(a), Segments(b), '.');
    assert a.path == Segments(a)[1..] && b.path == Segments(b)[1..];
  }

  // -- Rendering round trips --------------------------------------------------

  lemma {:induction false} JoinChars(parts: seq<string>, separator: char)
    requires forall i :: 0 <= i < |parts| ==> IsSegment(parts[i])
    ensures forall i :: 0 <= i < |Join(parts, separator)| ==>
              IsSegmentChar(Join(parts, separator)[i]) || Join(parts, separator)[i] == separator
    ensures parts != [] ==> Join(parts, separator) != ""
  {
    if |parts| > 1 {
      JoinChars(parts[1..], separator);
    }
  }

  lemma {:induction false} ReplaceJoin(parts: seq<string>)
    requires forall i :: 0 <= i < |parts| ==> IsSegment(parts[i])
    ensures Replace(Join(parts, '/'), '/', '.') == Join(parts, '.')
  {
    if |parts| > 1 {
      ReplaceJoin(parts[1..]);
      var slashed, dotted := Join(parts[1..], '/'), Join(parts[1..], '.');
      assert Join(parts, '/') == parts[0] + "/" + slashed && Join(parts, '.') == parts[0] + "." + dotted;
      assert |slashed| == |Replace(slashed, '/', '.')| == |dotted|;
      forall i | 0 <= i < |Join(parts, '/')|
        ensures Replace(Join(parts, '/'), '/', '.')[i] == Join(parts, '.')[i]
      {
        if i > |parts[0]| {
          var k := i - |parts[0]| - 1;
          assert Join(parts, '/')[i] == slashed[k] && Join(parts, '.')[i] == dotted[k];
          assert dotted[k] == Replace(slashed, '/', '.')[k];
        }
      }
    }
  }

  lemma TrimSolid(text: string)
    requires text != "" && !IsWhitespace(text[0]) && !IsWhitespace(text[|text| - 1])
    ensures Trim(text) == text
  {
  }

  lemma ParseDotted(id: ModelId, text: string)
    requires IsModelId(id) && DottedForm(text) == LogicalName(id)
    ensures ParseModelId(text) == Ok(id)
  {
    LogicalNameIsJoin(id);
    SplitJoin(Segments(id), '.');
    assert Segments(id)[1..] == id.path;
  }

  lemma LogicalNameDotted(id: ModelId)
    requires IsModelId(id)
    ensures DottedForm(LogicalName(id)) == LogicalName(id)
  {
    var dotted := Join(Segments(id), '.');
    LogicalNameIsJoin(id);
    JoinChars(Segments(id), '.');
    JoinEnd(Segments(id), '.');
    TrimSolid(dotted);
    if |URI_SCHEME| <= |dotted| {
      assert URI_SCHEME[5] == ':' && dotted[5] != ':';
      assert dotted[..|URI_SCHEME|][5] == dotted[5];
    }
  }

  lemma UriDotted(id: ModelId)
    requires IsModelId(id)
    ensures DottedForm(ModelUri(id)) == LogicalName(id)
  {
    var slashed := Join(Segments(id), '/');
    LogicalNameIsJoin(id);
    JoinEnd(Segments(id), '/');
    var uri := ModelUri(id);
    assert uri[|uri| - 1] == slashed[|slashed| - 1];
    TrimSolid(uri);
    assert uri[|URI_SCHEME|..] == slashed;
    ReplaceJoin(Segments(id));
  }

  /** Both renderings of an identity parse back to it. */
  lemma ParseRoundTrip(id: ModelId)
    requires IsModelId(id)
    ensures ParseModelId(LogicalName(id)) == Ok(id)
    ensures ParseModelId(ModelUri(id)) == Ok(id)
  {
    LogicalNameDotted(id);
    ParseDotted(id, LogicalName(id));
    UriDotted(id);
    ParseDotted(id, ModelUri(id));
  }

  lemma {:induction false} JoinEnd(parts: seq<string>, separator: char)
    requires parts != [] && forall i :: 0 <= i < |parts| ==> IsSegment(parts[i])
    ensures Join(parts, separator) != "" && IsSegmentChar(Join(parts, separator)[0])
    ensures IsSegmentChar(Join(parts, separator)[|Join(parts, separator)| - 1])
  {
    if |parts| > 1 {
      JoinEnd(parts[1..], separator);
    }
  }

  lemma {:induction false} JoinSplit(text: string, separator: char)
    ensures Join(Split(text, separator), separator) == text
  {
    if text != "" {
      JoinSplit(text[1..], separator);
      var rest := Split(text[1..], separator);
      assert [text[0]] + text[1..] == text;
      if text[0] != separator && |rest| > 1 {
        assert Split(text, separator)[1..] == rest[1..];
      } else if text[0] == separator {
        assert Split(text, separator)[1..] == rest;
      }
    }
  }

  /** Parsing accepts exactly the texts whose dotted form is the logical name of a valid identity. */
  lemma ParseAcceptsExactly(text: string, id: ModelId)
    ensures ParseModelId(text) == Ok(id) <==> IsModelId(id) && DottedForm(text) == LogicalName(id)
  {
    if ParseModelId(text) == Ok(id) {
      var parts := Split(DottedForm(text), '.');
      JoinSplit(DottedForm(text), '.');
      assert Segments(id) == parts;
      LogicalNameIsJoin(id);
    } else if IsModelId(id) && DottedForm(text) == LogicalName(id) {
      ParseDotted(id, text);
    }
  }
}
