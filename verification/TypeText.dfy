/**
 Printing a type and parsing it back
 (crates/phlo-transform-core/src/semantic.rs).
 */
module TypeText {
  import opened Wrappers
  import opened Identity
  import opened Sql
  import opened Semantic

  // -- Splitting a printed argument list ----------------------------------------------------------

  /** Reading `p` at one bracket depth ends at another and only adds to the current part. */
  ghost predicate Moves(p: string, from: nat, to: nat) {
    forall rest, current :: SplitFrom(p + rest, from, current) == SplitFrom(rest, to, current + p)
  }

  lemma MovesNothing(depth: nat)
    ensures Moves("", depth, depth)
  {
    forall rest, current ensures SplitFrom("" + rest, depth, current) == SplitFrom(rest, depth, current + "") {
      assert "" + rest == rest && current + "" == current;
    }
  }

  function DepthAfter(c: char, depth: nat): nat {
    if IsOpen(c) then depth + 1 else if IsClose(c) && depth > 0 then depth - 1 else depth
  }

  lemma MovesChar(c: char, depth: nat)
    requires c != ',' || depth > 0
    ensures Moves([c], depth, DepthAfter(c, depth))
  {
    forall rest, current
      ensures SplitFrom([c] + rest, depth, current) == SplitFrom(rest, DepthAfter(c, depth), current + [c])
    {
      assert ([c] + rest)[1..] == rest;
    }
  }

  lemma MovesConcat(p: string, q: string, from: nat, via: nat, to: nat)
    requires Moves(p, from, via) && Moves(q, via, to)
    ensures Moves(p + q, from, to)
  {
    forall rest, current
      ensures SplitFrom(p + q + rest, from, current) == SplitFrom(rest, to, current + (p + q))
    {
      assert p + q + rest == p + (q + rest) && current + (p + q) == current + p + q;
    }
  }

  predicate IsPlain(text: string) {
    forall i :: 0 <= i < |text| ==> !IsOpen(text[i]) && !IsClose(text[i]) && text[i] != ','
  }

  lemma {:induction false} MovesPlain(text: string, depth: nat)
    requires IsPlain(text)
    ensures Moves(text, depth, depth)
  {
    if text == "" {
      MovesNothing(depth);
    } else {
      MovesChar(text[0], depth);
      MovesPlain(text[1..], depth);
      MovesConcat([text[0]], text[1..], depth, depth, depth);
      assert [text[0]] + text[1..] == text;
    }
  }

  /** A bracketed body returns to the depth it started from. */
  lemma MovesBracketed(head: string, body: string, depth: nat)
    requires IsPlain(head) && Moves(body, depth + 1, depth + 1)
    ensures Moves(Bracketed(head, body), depth, depth)
  {
    MovesPlain(head, depth);
    MovesChar('(', depth);
    MovesConcat(head, "(", depth, depth, depth + 1);
    MovesConcat(head + "(", body, depth, depth + 1, depth + 1);
    MovesChar(')', depth + 1);
    MovesConcat(head + "(" + body, ")", depth, depth + 1, depth);
  }

  lemma MovesSeparator(depth: nat)
    requires depth > 0
    ensures Moves(", ", depth, depth)
  {
    MovesChar(',', depth);
    MovesChar(' ', depth);
    MovesConcat(",", " ", depth, depth, depth);
    assert "," + " " == ", ";
  }

  lemma MovesComma(a: string, b: string, depth: nat)
    requires depth > 0 && Moves(a, depth, depth) && Moves(b, depth, depth)
    ensures Moves(a + ", " + b, depth, depth)
  {
    MovesSeparator(depth);
    MovesConcat(a, ", ", depth, depth, depth);
    MovesConcat(a + ", ", b, depth, depth, depth);
  }

  /** Type names have no brackets and no commas. */
  lemma LeafTextPlain(t: DataType)
    ensures IsPlain(LeafText(t))
  {
  }

  lemma LeafTextSolid(t: DataType)
    ensures IsSolid(LeafText(t))
  {
  }

  lemma MovesLeaf(t: DataType, depth: nat)
    requires IsLeaf(t)
    ensures Moves(Lowered(t), depth, depth)
  {
    LoweredLeaf(t);
    LeafTextPlain(t);
    MovesPlain(LeafText(t), depth);
  }

  lemma KeywordsArePlain()
    ensures IsPlain("array") && IsPlain("map") && IsPlain("row")
  {
  }

  lemma MovesArray(inner: DataType, depth: nat)
    requires Moves(Lowered(inner), depth + 1, depth + 1)
    ensures Moves(Lowered(ArrayOf(inner)), depth, depth)
  {
    KeywordsArePlain();
    LoweredArray(inner);
    MovesBracketed("array", Lowered(inner), depth);
  }

  lemma MovesMap(key: DataType, value: DataType, depth: nat)
    requires Moves(Lowered(key), depth + 1, depth + 1) && Moves(Lowered(value), depth + 1, depth + 1)
    ensures Moves(Lowered(MapOf(key, value)), depth, depth)
  {
    KeywordsArePlain();
    LoweredMap(key, value);
    MovesComma(Lowered(key), Lowered(value), depth + 1);
    MovesBracketed("map", Lowered(key) + ", " + Lowered(value), depth);
  }

  lemma MovesRow(fields: seq<DataType>, depth: nat)
    requires Moves(JoinComma(LoweredAll(fields)), depth + 1, depth + 1)
    ensures Moves(Lowered(RowOf(fields)), depth, depth)
  {
    KeywordsArePlain();
    LoweredRow(fields);
    MovesBracketed("row", JoinComma(LoweredAll(fields)), depth);
  }

  /** A printed type stays within one part, at any depth. */
  lemma {:induction false} MovesType(t: DataType, depth: nat)
    ensures Moves(Lowered(t), depth, depth)
    decreases t, 1
  {
    match t
    case ArrayOf(inner) =>
      MovesType(inner, depth + 1);
      MovesArray(inner, depth);
    case MapOf(key, value) =>
      MovesType(key, depth + 1);
      MovesType(value, depth + 1);
      MovesMap(key, value, depth);
    case RowOf(fields) =>
      MovesFields(fields, depth + 1);
      MovesRow(fields, depth);
    case _ =>
      MovesLeaf(t, depth);
  }

  lemma {:induction false} MovesFields(fields: seq<DataType>, depth: nat)
    requires depth > 0
    ensures Moves(JoinComma(LoweredAll(fields)), depth, depth)
    decreases fields, 0
  {
    if fields == [] {
      MovesNothing(depth);
    } else {
      MovesType(fields[0], depth);
      if |fields| > 1 {
        MovesFields(fields[1..], depth);
        MovesComma(Lowered(fields[0]), JoinComma(LoweredAll(fields[1..])), depth);
        JoinFirst(Lowered(fields[0]), LoweredAll(fields[1..]));
      }
    }
  }

  /** Neither empty nor starting or ending with space. */
  predicate IsSolid(text: string) {
    text != "" && !IsWhitespace(text[0]) && !IsWhitespace(text[|text| - 1])
  }

  lemma BracketedSolid(head: string, body: string)
    requires head != "" && !IsWhitespace(head[0])
    ensures IsSolid(Bracketed(head, body)) && Bracketed(head, body)[0] == head[0]
  {
  }

  lemma LoweredSolid(t: DataType)
    ensures IsSolid(Lowered(t))
  {
    match t
    case ArrayOf(inner) =>
      LoweredArray(inner);
      BracketedSolid("array", Lowered(inner));
    case MapOf(key, value) =>
      LoweredMap(key, value);
      BracketedSolid("map", Lowered(key) + ", " + Lowered(value));
    case RowOf(fields) =>
      LoweredRow(fields);
      BracketedSolid("row", JoinComma(LoweredAll(fields)));
    case _ =>
      LoweredLeafSolid(t);
  }

  lemma LoweredLeafSolid(t: DataType)
    requires IsLeaf(t)
    ensures IsSolid(Lowered(t))
  {
    LoweredLeaf(t);
    LeafTextSolid(t);
  }

  lemma TrimAfterSpace(text: string)
    requires IsSolid(text)
    ensures Trim(" " + text) == text && Trim(text) == text
  {
    TrimSolid(text);
    assert (" " + text)[1..] == text;
  }

  /** The last part. */
  lemma SplitLast(t: DataType, lead: string)
    requires lead == "" || lead == " "
    ensures SplitFrom(Lowered(t), 0, lead) == [Lowered(t)]
  {
    var text := Lowered(t);
    MovesType(t, 0);
    LoweredSolid(t);
    TrimLead(text, lead);
    SplitMoved(text, "", lead, 0, 0);
    assert text + "" == text;
  }

  lemma SplitAtComma(part: string, rest: string)
    ensures SplitFrom(", " + rest, 0, part) == [Trim(part)] + SplitFrom(rest, 0, " ")
  {
    assert (", " + rest)[1..] == " " + rest && (" " + rest)[1..] == rest;
    assert "" + [(" " + rest)[0]] == " ";
    assert SplitFrom(" " + rest, 0, "") == SplitFrom(rest, 0, " ");
  }

  lemma SplitMoved(p: string, rest: string, current: string, from: nat, to: nat)
    requires Moves(p, from, to)
    ensures SplitFrom(p + rest, from, current) == SplitFrom(rest, to, current + p)
  {
  }

  lemma TrimLead(text: string, lead: string)
    requires IsSolid(text) && (lead == "" || lead == " ")
    ensures Trim(lead + text) == text
  {
    TrimAfterSpace(text);
    assert "" + text == text;
  }

  /** A part and those after it. */
  lemma SplitComma(t: DataType, rest: string, lead: string)
    requires lead == "" || lead == " "
    ensures SplitFrom(Lowered(t) + ", " + rest, 0, lead) == [Lowered(t)] + SplitFrom(rest, 0, " ")
  {
    var text := Lowered(t);
    MovesType(t, 0);
    LoweredSolid(t);
    TrimLead(text, lead);
    SplitMoved(text, ", " + rest, lead, 0, 0);
    assert text + ", " + rest == text + (", " + rest);
    SplitAtComma(lead + text, rest);
  }

  lemma SplitTwo(first: DataType, second: DataType)
    ensures SplitFrom(Lowered(first) + ", " + Lowered(second), 0, "") == [Lowered(first), Lowered(second)]
  {
    var a, b := Lowered(first), Lowered(second);
    SplitComma(first, b, "");
    SplitLast(second, " ");
    PairOf(a, b);
  }

  lemma PairOf(a: string, b: string)
    ensures [a] + [b] == [a, b]
  {
  }

  lemma {:induction false} SplitFields(fields: seq<DataType>, lead: string)
    requires lead == "" || (lead == " " && fields != [])
    ensures SplitFrom(JoinComma(LoweredAll(fields)), 0, lead) == LoweredAll(fields)
  {
    if |fields| == 1 {
      SplitLast(fields[0], lead);
    } else if |fields| > 1 {
      SplitFields(fields[1..], " ");
      SplitComma(fields[0], JoinComma(LoweredAll(fields[1..])), lead);
      JoinFirst(Lowered(fields[0]), LoweredAll(fields[1..]));
    }
  }

  lemma BracketArguments(keyword: string, body: string)
    requires keyword != ""
    ensures keyword <= Bracketed(keyword, body)
    ensures TypeArguments(Bracketed(keyword, body), keyword) == Some(SplitFrom(body, 0, ""))
  {
    var lower := Bracketed(keyword, body);
    var rest := lower[|keyword|..];
    assert rest == "(" + body + ")";
    assert TrimStart(rest) == rest;
    assert rest[1..|rest| - 1] == body;
  }

  // -- Parsing a printed type ------------------------------------------------------------------------

  lemma ParseArrayText(text: string, body: string, part: string)
    requires Lower(Trim(text)) == Bracketed("array", body) && SplitFrom(body, 0, "") == [part]
    ensures ParseTrino(text) == ArrayOf(ParseTrino(part))
  {
    BracketArguments("array", body);
  }

  lemma ParseMapText(text: string, body: string, first: string, second: string)
    requires Lower(Trim(text)) == Bracketed("map", body) && SplitFrom(body, 0, "") == [first, second]
    ensures ParseTrino(text) == MapOf(ParseTrino(first), ParseTrino(second))
  {
    BracketArguments("map", body);
    assert Bracketed("map", body)[0] == 'm';
  }

  lemma ParseRowText(text: string, body: string, parts: seq<string>)
    requires Lower(Trim(text)) == Bracketed("row", body) && SplitFrom(body, 0, "") == parts
    ensures forall i :: 0 <= i < |parts| ==> |parts[i]| < |text|
    ensures ParseTrino(text) == RowOf(ParseFields(parts, |text|))
  {
    BracketArguments("row", body);
    TrimShorter(text);
    assert Bracketed("row", body)[0] == 'r';
  }

  lemma {:induction false} BeforeBracketPlain(text: string)
    requires IsPlain(text)
    ensures BeforeBracket(text) == text
  {
    if text != "" {
      BeforeBracketPlain(text[1..]);
      assert [text[0]] + text[1..] == text;
    }
  }

  lemma NumericNames(t: DataType, lower: string)
    requires IsNumeric(t)
    ensures ParseName(LeafText(t), lower) == t
  {
  }

  lemma TextNames(t: DataType, lower: string)
    requires IsLeaf(t) && !IsNumeric(t) && !t.Timestamp? && !t.TimestampTz?
    ensures ParseName(LeafText(t), lower) == t
  {
  }

  lemma TimestampNames(lower: string)
    ensures ParseName("timestamp with time zone", lower) == Unknown
    ensures ParseName("timestamp", lower) == if Contains(lower, "with time zone") then TimestampTz else Timestamp
  {
  }

  lemma NoZone()
    ensures !Contains("timestamp", "with time zone")
  {
  }

  lemma LeafIsNoKeyword(t: DataType)
    ensures !("array" <= LeafText(t)) && !("map" <= LeafText(t)) && !("row" <= LeafText(t))
  {
    var text := LeafText(t);
    assert text[0] != 'a' && text[0] != 'm' && (text[0] != 'r' || text[1] != 'o');
  }

  lemma LeafParses(t: DataType)
    requires IsLeaf(t)
    ensures ParseLeaf(LeafText(t)) == if t == TimestampTz then Unknown else t
  {
    LeafTextPlain(t);
    LeafTextSolid(t);
    BeforeBracketPlain(LeafText(t));
    TrimSolid(LeafText(t));
    if IsNumeric(t) {
      NumericNames(t, LeafText(t));
    } else if t.Timestamp? || t.TimestampTz? {
      NoZone();
      TimestampNames(LeafText(t));
    } else {
      TextNames(t, LeafText(t));
    }
  }

  /** `timestamp with time zone` is not a name the parser knows: it is read as unknown. */
  lemma ParseLeafText(text: string, t: DataType)
    requires IsLeaf(t) && Lower(Trim(text)) == LeafText(t)
    ensures ParseTrino(text) == if t == TimestampTz then Unknown else t
  {
    LeafIsNoKeyword(t);
    LeafParses(t);
  }

  // -- Keywords in a text --------------------------------------------------------------------------------

  predicate Begins(text: string) {
    || (|text| >= 5 && text[0] == 'a' && text[1] == 'r' && text[2] == 'r' && text[3] == 'a' && text[4] == 'y')
    || (|text| >= 3 && text[0] == 'm' && text[1] == 'a' && text[2] == 'p')
    || (|text| >= 3 && text[0] == 'r' && text[1] == 'o' && text[2] == 'w')
  }

  lemma KeywordBegins(text: string)
    requires "array" <= text || "map" <= text || "row" <= text
    ensures Begins(text)
  {
    if "array" <= text {
      assert text[..5] == "array";
      assert text[0] == text[..5][0] && text[1] == text[..5][1] && text[2] == text[..5][2]
        && text[3] == text[..5][3] && text[4] == text[..5][4];
    } else {
      var head := if "map" <= text then "map" else "row";
      assert text[..3] == head;
      assert text[0] == text[..3][0] && text[1] == text[..3][1] && text[2] == text[..3][2];
    }
  }

  /** How often a composite keyword occurs in a lower-case text. */
  function Keywords(text: string): nat {
    if text == "" then 0 else (if Begins(text) then 1 else 0) + Keywords(text[1..])
  }

  lemma KeywordsFirst(text: string, more: string)
    requires text != ""
    ensures Keywords(text) == (if Begins(text) then 1 else 0) + Keywords(text[1..])
    ensures Begins(text) ==> Begins(text + more)
    ensures (text + more)[1..] == text[1..] + more
  {
  }

  lemma {:induction false} KeywordsConcat(a: string, b: string)
    ensures Keywords(a) + Keywords(b) <= Keywords(a + b)
  {
    if a == "" {
      assert a + b == b;
    } else {
      KeywordsConcat(a[1..], b);
      KeywordsFirst(a, b);
      KeywordsFirst(a + b, "");
    }
  }

  lemma KeywordsParts(text: string, n: nat)
    requires n <= |text|
    ensures Keywords(text[..n]) <= Keywords(text) && Keywords(text[n..]) <= Keywords(text)
  {
    var a, b := text[..n], text[n..];
    KeywordsConcat(a, b);
    assert a + b == text;
  }

  lemma {:induction false} KeywordsTrimStart(text: string)
    ensures Keywords(TrimStart(text)) <= Keywords(text)
  {
    if text != "" && IsWhitespace(text[0]) {
      KeywordsTrimStart(text[1..]);
    }
  }

  lemma {:induction false} KeywordsTrimEnd(text: string)
    ensures Keywords(TrimEnd(text)) <= Keywords(text)
  {
    if text != "" && IsWhitespace(text[|text| - 1]) {
      KeywordsTrimEnd(text[..|text| - 1]);
      KeywordsParts(text, |text| - 1);
    }
  }

  lemma KeywordsTrim(text: string)
    ensures Keywords(Trim(text)) <= Keywords(text)
  {
    KeywordsTrimStart(text);
    KeywordsTrimEnd(TrimStart(text));
  }

  lemma {:induction false} KeywordsAfterSpace(text: string)
    ensures Keywords(AfterSpace(text)) <= Keywords(text)
  {
    if text != "" && text[0] != ' ' {
      KeywordsAfterSpace(text[1..]);
    }
  }

  function KeywordsIn(parts: seq<string>): nat {
    if parts == [] then 0 else Keywords(parts[0]) + KeywordsIn(parts[1..])
  }

  lemma KeywordsAround(current: string, text: string)
    requires text != ""
    ensures Keywords(current) + Keywords(text[1..]) <= Keywords(current + text)
    ensures current + [text[0]] + text[1..] == current + text
  {
    KeywordsConcat(current, text);
  }

  /** The parts of a text hold no more keywords than the text. */
  lemma {:induction false} KeywordsSplit(text: string, depth: nat, current: string)
    ensures KeywordsIn(SplitFrom(text, depth, current)) <= Keywords(current + text)
    decreases |text|
  {
    if text == "" {
      assert current + text == current;
      KeywordsTrim(current);
    } else {
      KeywordsAround(current, text);
      if text[0] == ',' && depth == 0 {
        KeywordsTrim(current);
        KeywordsSplit(text[1..], 0, "");
        assert "" + text[1..] == text[1..];
      } else {
        KeywordsSplit(text[1..], DepthAfter(text[0], depth), current + [text[0]]);
      }
    }
  }

  // -- Lower-case texts stay lower-case -------------------------------------------------------------------

  predicate NoUpper(text: string) {
    forall i :: 0 <= i < |text| ==> !('A' <= text[i] <= 'Z')
  }

  lemma LowerHasNoUpper(text: string)
    ensures NoUpper(Lower(text))
  {
    forall i | 0 <= i < |text| ensures !('A' <= Lower(text)[i] <= 'Z') {
      assert Lower(text)[i] == LowerChar(text[i]);
    }
  }

  lemma NoUpperIsLower(text: string)
    requires NoUpper(text)
    ensures Lower(text) == text
  {
    forall i | 0 <= i < |text| ensures Lower(text)[i] == text[i] {
      assert Lower(text)[i] == LowerChar(text[i]);
    }
  }

  lemma NoUpperTrim(text: string)
    requires NoUpper(text)
    ensures NoUpper(Trim(text))
  {
    TrimStartShorter(text);
    TrimEndShorter(TrimStart(text));
  }

  predicate NoneUpper(parts: seq<string>) {
    forall i :: 0 <= i < |parts| ==> NoUpper(parts[i])
  }

  lemma {:induction false} NoUpperSplit(text: string, depth: nat, current: string)
    requires NoUpper(text) && NoUpper(current)
    ensures NoneUpper(SplitFrom(text, depth, current))
    decreases |text|
  {
    if text == "" {
      NoUpperTrim(current);
    } else if text[0] == ',' && depth == 0 {
      NoUpperTrim(current);
      NoUpperSplit(text[1..], 0, "");
    } else {
      NoUpperSplit(text[1..], DepthAfter(text[0], depth), current + [text[0]]);
    }
  }

  lemma {:induction false} NoUpperAfterSpace(text: string)
    requires NoUpper(text)
    ensures NoUpper(AfterSpace(text))
  {
    if text != "" && text[0] != ' ' {
      NoUpperAfterSpace(text[1..]);
    }
  }

  // -- Composites ---------------------------------------------------------------------------------------------

  function Composites(t: DataType): nat
    decreases t, 1
  {
    match t
    case ArrayOf(inner) => 1 + Composites(inner)
    case MapOf(key, value) => 1 + Composites(key) + Composites(value)
    case RowOf(fields) => 1 + CompositesIn(fields)
    case _ => 0
  }

  function CompositesIn(types: seq<DataType>): nat
    decreases types, 0
  {
    if types == [] then 0 else Composites(types[0]) + CompositesIn(types[1..])
  }

  lemma KeywordsAfterKeyword(lower: string, n: nat)
    requires Begins(lower) && 1 <= n <= |lower|
    ensures Keywords(lower[n..]) < Keywords(lower)
  {
    KeywordsParts(lower[1..], n - 1);
    assert lower[1..][n - 1..] == lower[n..];
  }

  lemma KeywordsInside(rest: string)
    requires |rest| >= 2
    ensures KeywordsIn(SplitFrom(rest[1..|rest| - 1], 0, "")) <= Keywords(rest)
  {
    var inner := rest[1..|rest| - 1];
    KeywordsSplit(inner, 0, "");
    assert "" + inner == inner;
    KeywordsParts(rest, 1);
    KeywordsParts(rest[1..], |rest| - 2);
    assert rest[1..][..|rest| - 2] == inner;
  }

  lemma {:induction false} NoUpperTrimStart(text: string)
    requires NoUpper(text)
    ensures NoUpper(TrimStart(text))
  {
    if text != "" && IsWhitespace(text[0]) {
      NoUpperTrimStart(text[1..]);
    }
  }

  lemma NoUpperInside(lower: string, n: nat)
    requires NoUpper(lower) && n <= |lower|
    ensures var rest := TrimStart(lower[n..]);
            |rest| >= 2 ==> NoneUpper(SplitFrom(rest[1..|rest| - 1], 0, ""))
  {
    NoUpperTrimStart(lower[n..]);
    var rest := TrimStart(lower[n..]);
    if |rest| >= 2 {
      NoUpperSplit(rest[1..|rest| - 1], 0, "");
    }
  }

  /** The arguments after a keyword are lower-case and hold fewer keywords than the whole. */
  lemma KeywordsArguments(lower: string, keyword: string)
    requires keyword <= lower && (keyword == "array" || keyword == "map" || keyword == "row") && NoUpper(lower)
    ensures var args := TypeArguments(lower, keyword);
            args.Some? ==> KeywordsIn(args.value) < Keywords(lower) && NoneUpper(args.value)
    ensures Keywords(lower) > 0
  {
    KeywordBegins(lower);
    KeywordsAfterKeyword(lower, |keyword|);
    KeywordsTrimStart(lower[|keyword|..]);
    NoUpperInside(lower, |keyword|);
    var rest := TrimStart(lower[|keyword|..]);
    if |rest| >= 2 {
      KeywordsInside(rest);
    }
  }

  /** A type parsed from a lower-case text has no more composites than the text has keywords. */
  lemma {:induction false} ParsedComposites(text: string)
    requires NoUpper(text)
    ensures Composites(ParseTrino(text)) <= Keywords(text)
    decreases |text|, 2
  {
    TrimShorter(text);
    KeywordsTrim(text);
    NoUpperTrim(text);
    NoUpperIsLower(Trim(text));
    var lower := Trim(text);
    if "array" <= lower {
      ParsedArray(text, lower);
    } else if "map" <= lower {
      ParsedMap(text, lower);
    } else if "row" <= lower {
      ParsedRow(text, lower);
    }
  }

  lemma {:induction false} ParsedArray(text: string, lower: string)
    requires lower == Lower(Trim(text)) && NoUpper(lower) && |lower| <= |text| && "array" <= lower
    ensures Composites(ParseTrino(text)) <= Keywords(lower)
    decreases |text|, 1
  {
    KeywordsArguments(lower, "array");
    var args := TypeArguments(lower, "array");
    if args.Some? && args.value != [] {
      ParsedComposites(args.value[0]);
    }
  }

  lemma KeywordsOfTwo(parts: seq<string>)
    requires |parts| == 2
    ensures KeywordsIn(parts) == Keywords(parts[0]) + Keywords(parts[1])
  {
    assert parts[1..][0] == parts[1] && parts[1..][1..] == [];
    assert KeywordsIn(parts[1..]) == Keywords(parts[1]) + KeywordsIn(parts[1..][1..]);
  }

  lemma {:induction false} ParsedMap(text: string, lower: string)
    requires lower == Lower(Trim(text)) && NoUpper(lower) && |lower| <= |text|
    requires "map" <= lower && !("array" <= lower)
    ensures Composites(ParseTrino(text)) <= Keywords(lower)
    decreases |text|, 1
  {
    KeywordsArguments(lower, "map");
    var args := TypeArguments(lower, "map");
    if args.Some? && |args.value| == 2 {
      ParsedComposites(args.value[0]);
      ParsedComposites(args.value[1]);
      KeywordsOfTwo(args.value);
    }
  }

  lemma {:induction false} ParsedRow(text: string, lower: string)
    requires lower == Lower(Trim(text)) && NoUpper(lower) && |lower| <= |text|
    requires "row" <= lower && !("array" <= lower) && !("map" <= lower)
    ensures Composites(ParseTrino(text)) <= Keywords(lower)
    decreases |text|, 1
  {
    KeywordsArguments(lower, "row");
    var args := TypeArguments(lower, "row");
    if args.Some? {
      ParsedFields(args.value, |text|);
    }
  }

  lemma {:induction false} ParsedFields(fields: seq<string>, bound: nat)
    requires NoneUpper(fields) && forall i :: 0 <= i < |fields| ==> |fields[i]| < bound
    ensures CompositesIn(ParseFields(fields, bound)) <= KeywordsIn(fields)
    decreases bound, 0, |fields|
  {
    if fields != [] {
      KeywordsAfterSpace(fields[0]);
      NoUpperAfterSpace(fields[0]);
      ParsedComposites(AfterSpace(fields[0]));
      ParsedFields(fields[1..], bound);
    }
  }

  // -- A printed type has one keyword per composite ------------------------------------------------------------

  predicate Breaks(c: char) {
    c == '(' || c == ')' || c == ',' || c == ' '
  }

  lemma BeginsBroken(a: string, c: char, b: string)
    requires Breaks(c) && Begins(a + [c] + b)
    ensures Begins(a)
  {
    var text := a + [c] + b;
    assert text[|a|] == c;
    assert forall i :: 0 <= i < |a| ==> text[i] == a[i];
  }

  lemma {:induction false} KeywordsBroken(a: string, c: char, b: string)
    requires Breaks(c)
    ensures Keywords(a + [c] + b) <= Keywords(a) + Keywords(b)
  {
    var text := a + [c] + b;
    if a == "" {
      assert text[1..] == b && text[0] == c;
    } else {
      KeywordsBroken(a[1..], c, b);
      assert text[1..] == a[1..] + [c] + b;
      if Begins(text) {
        BeginsBroken(a, c, b);
      }
    }
  }

  lemma KeywordsBracketed(head: string, body: string)
    ensures Keywords(Bracketed(head, body)) <= Keywords(head) + Keywords(body)
  {
    KeywordsBroken(body, ')', "");
    KeywordsBroken(head, '(', body + [')'] + "");
    assert head + ['('] + (body + [')'] + "") == Bracketed(head, body);
  }

  lemma KeywordsComma(a: string, b: string)
    ensures Keywords(a + ", " + b) <= Keywords(a) + Keywords(b)
  {
    KeywordsBroken("", ' ', b);
    KeywordsBroken(a, ',', "" + [' '] + b);
    assert a + [','] + ("" + [' '] + b) == a + ", " + b;
  }

  lemma KeywordsOfKeywords()
    ensures Keywords("array") <= 1 && Keywords("map") <= 1 && Keywords("row") <= 1
  {
  }

  /** None of the pairs of letters that only occur in keywords. */
  predicate NoPairs(text: string) {
    forall i, j :: 0 <= i < |text| && 0 <= j < |text| && j == i + 1 ==>
      !(text[i] == 'r' && (text[j] == 'r' || text[j] == 'o')) && !(text[i] == 'a' && text[j] == 'p')
  }

  lemma {:induction false} NoPairsNoKeywords(text: string)
    requires NoPairs(text)
    ensures Keywords(text) == 0
  {
    if text != "" {
      NoPairsNoKeywords(text[1..]);
    }
  }

  lemma NumberHasNoPairs(t: DataType)
    requires IsNumeric(t)
    ensures NoPairs(LeafText(t))
  {
  }

  lemma TextHasNoPairs(t: DataType)
    requires !IsNumeric(t)
    ensures NoPairs(LeafText(t))
  {
  }

  lemma LeafHasNoPairs(t: DataType)
    ensures NoPairs(LeafText(t))
  {
    if IsNumeric(t) {
      NumberHasNoPairs(t);
    } else {
      TextHasNoPairs(t);
    }
  }

  lemma {:induction false} PrintedKeywords(t: DataType)
    ensures Keywords(Lowered(t)) <= Composites(t)
    decreases t, 1
  {
    match t
    case ArrayOf(inner) =>
      PrintedKeywords(inner);
      PrintedArray(inner);
    case MapOf(key, value) =>
      PrintedKeywords(key);
      PrintedKeywords(value);
      PrintedMap(key, value);
    case RowOf(fields) =>
      PrintedFields(fields);
      PrintedRow(fields);
    case _ =>
      PrintedLeaf(t);
  }

  lemma PrintedArray(inner: DataType)
    requires Keywords(Lowered(inner)) <= Composites(inner)
    ensures Keywords(Lowered(ArrayOf(inner))) <= Composites(ArrayOf(inner))
  {
    LoweredArray(inner);
    KeywordsOfKeywords();
    KeywordsBracketed("array", Lowered(inner));
  }

  lemma PrintedMap(key: DataType, value: DataType)
    requires Keywords(Lowered(key)) <= Composites(key) && Keywords(Lowered(value)) <= Composites(value)
    ensures Keywords(Lowered(MapOf(key, value))) <= Composites(MapOf(key, value))
  {
    LoweredMap(key, value);
    KeywordsOfKeywords();
    KeywordsComma(Lowered(key), Lowered(value));
    KeywordsBracketed("map", Lowered(key) + ", " + Lowered(value));
  }

  lemma PrintedRow(fields: seq<DataType>)
    requires Keywords(JoinComma(LoweredAll(fields))) <= CompositesIn(fields)
    ensures Keywords(Lowered(RowOf(fields))) <= Composites(RowOf(fields))
  {
    LoweredRow(fields);
    KeywordsOfKeywords();
    KeywordsBracketed("row", JoinComma(LoweredAll(fields)));
  }

  lemma PrintedLeaf(t: DataType)
    requires IsLeaf(t)
    ensures Keywords(Lowered(t)) == 0
  {
    LoweredLeaf(t);
    LeafHasNoPairs(t);
    NoPairsNoKeywords(LeafText(t));
  }

  lemma {:induction false} PrintedFields(fields: seq<DataType>)
    ensures Keywords(JoinComma(LoweredAll(fields))) <= CompositesIn(fields)
    decreases fields, 0
  {
    if fields != [] {
      PrintedKeywords(fields[0]);
      if |fields| > 1 {
        PrintedFields(fields[1..]);
        JoinFirst(Lowered(fields[0]), LoweredAll(fields[1..]));
        KeywordsComma(Lowered(fields[0]), JoinComma(LoweredAll(fields[1..])));
      }
    }
  }

  // -- Round trips -----------------------------------------------------------------------------------------------

  predicate PrintsSpace(t: DataType) {
    ' ' in Lowered(t)
  }

  /** Types that survive printing and parsing: no time zone anywhere, and no ROW field printed with a space. */
  predicate RoundTrips(t: DataType)
    decreases t, 1
  {
    match t
    case ArrayOf(inner) => RoundTrips(inner)
    case MapOf(key, value) => RoundTrips(key) && RoundTrips(value)
    case RowOf(fields) => FieldsRoundTrip(fields)
    case _ => t != TimestampTz
  }

  predicate FieldsRoundTrip(fields: seq<DataType>)
    decreases fields, 0
  {
    fields != [] ==> RoundTrips(fields[0]) && !PrintsSpace(fields[0]) && FieldsRoundTrip(fields[1..])
  }

  lemma {:induction false} NoSpaceWhole(text: string)
    requires ' ' !in text
    ensures AfterSpace(text) == text
  {
  }

  lemma {:induction false} SpaceSplits(text: string) returns (before: string)
    requires ' ' in text
    ensures text == before + [' '] + AfterSpace(text) && ' ' !in before
  {
    if text[0] == ' ' {
      before := "";
    } else {
      var rest := SpaceSplits(text[1..]);
      before := [text[0]] + rest;
    }
  }

  lemma HeadBeforeSpace(text: string, head: string, n: nat)
    requires head <= text && n < |text| && text[n] == ' ' && ' ' !in head
    ensures |head| <= n
  {
    assert forall i :: 0 <= i < |head| ==> text[i] == head[i] && head[i] in head;
  }

  /** After the first space of a printed composite, too few keywords are left to parse it back. */
  lemma CutLosesKeyword(head: string, body: string)
    requires Begins(head) && ' ' !in head && ' ' in Bracketed(head, body)
    ensures Keywords(AfterSpace(Bracketed(head, body))) < Keywords(Bracketed(head, body))
  {
    var text := Bracketed(head, body);
    var before := SpaceSplits(text);
    var rest := AfterSpace(text);
    assert text[|before|] == ' ';
    HeadBeforeSpace(text, head, |before|);
    assert forall i :: 0 <= i < |head| ==> before[i] == text[i] == head[i];
    assert Begins(before);
    KeywordsConcat(before, [' '] + rest);
    assert before + ([' '] + rest) == text;
    assert ([' '] + rest)[1..] == rest;
  }

  lemma LoweredNoUpper(t: DataType)
    ensures NoUpper(Lowered(t))
  {
    LowerHasNoUpper(Print(t));
  }

  lemma HeadsBegin()
    ensures Begins("array") && Begins("map") && Begins("row")
    ensures ' ' !in "array" && ' ' !in "map" && ' ' !in "row"
  {
  }

  lemma CompositeCut(t: DataType)
    requires !IsLeaf(t) && PrintsSpace(t)
    ensures Keywords(AfterSpace(Lowered(t))) < Composites(t)
  {
    PrintedKeywords(t);
    HeadsBegin();
    if t.ArrayOf? {
      LoweredArray(t.inner);
      CutLosesKeyword("array", Lowered(t.inner));
    } else if t.MapOf? {
      LoweredMap(t.key, t.value);
      CutLosesKeyword("map", Lowered(t.key) + ", " + Lowered(t.value));
    } else {
      LoweredRow(t.fields);
      CutLosesKeyword("row", JoinComma(LoweredAll(t.fields)));
    }
  }

  lemma SpacedLeaf(t: DataType)
    requires IsLeaf(t) && PrintsSpace(t)
    ensures t == TimestampTz && AfterSpace(Lowered(t)) == "with time zone"
  {
    LoweredLeaf(t);
    OnlyZoneHasSpace(t);
    AfterTimestamp();
  }

  lemma OnlyZoneHasSpace(t: DataType)
    requires ' ' in LeafText(t)
    ensures t == TimestampTz
  {
  }

  lemma {:induction false} AfterFirstSpace(before: string, rest: string)
    requires ' ' !in before
    ensures AfterSpace(before + [' '] + rest) == rest
  {
    var text := before + [' '] + rest;
    if before == "" {
      assert text[0] == ' ' && text[1..] == rest;
    } else {
      AfterFirstSpace(before[1..], rest);
      assert text[1..] == before[1..] + [' '] + rest;
      assert text[1..][|before| - 1] == ' ';
    }
  }

  lemma AfterTimestamp()
    ensures AfterSpace("timestamp with time zone") == "with time zone"
  {
    AfterFirstSpace("timestamp", "with time zone");
    assert "timestamp" + [' '] + "with time zone" == "timestamp with time zone";
  }

  lemma ZoneText()
    ensures IsPlain("with time zone") && IsSolid("with time zone") && NoUpper("with time zone")
  {
  }

  /** A text without brackets is looked up as a type name. */
  lemma ParsePlain(text: string)
    requires IsPlain(text) && IsSolid(text) && NoUpper(text)
    requires !("array" <= text) && !("map" <= text) && !("row" <= text)
    ensures ParseTrino(text) == ParseName(text, text)
  {
    TrimSolid(text);
    NoUpperIsLower(text);
    BeforeBracketPlain(text);
  }

  lemma ZoneIsUnknown(text: string)
    requires text == "with time zone"
    ensures ParseTrino(text) == Unknown
  {
    ZoneText();
    assert text[0] == 'w';
    ParsePlain(text);
    ZoneIsNoName(text);
  }

  lemma ZoneIsNoName(lower: string)
    ensures ParseName("with time zone", lower) == Unknown
  {
  }

  /** A ROW field printed with a space is never read back. */
  lemma SpacedFieldLost(t: DataType)
    requires PrintsSpace(t)
    ensures ParseTrino(AfterSpace(Lowered(t))) != t
  {
    if IsLeaf(t) {
      SpacedLeaf(t);
      ZoneIsUnknown(AfterSpace(Lowered(t)));
    } else {
      CompositeCut(t);
      LoweredNoUpper(t);
      NoUpperAfterSpace(Lowered(t));
      ParsedComposites(AfterSpace(Lowered(t)));
    }
  }

  lemma LoweredIsTrimmed(t: DataType)
    ensures Lower(Trim(Lowered(t))) == Lowered(t)
  {
    LoweredSolid(t);
    TrimSolid(Lowered(t));
    LoweredNoUpper(t);
    NoUpperIsLower(Lowered(t));
  }

  lemma {:induction false} ReadBackExactly(text: string, t: DataType)
    requires Lower(Trim(text)) == Lowered(t)
    ensures ParseTrino(text) == t <==> RoundTrips(t)
    decreases t, 1
  {
    match t
    case ArrayOf(inner) =>
      LoweredArray(inner);
      SplitLast(inner, "");
      ParseArrayText(text, Lowered(inner), Lowered(inner));
      LoweredIsTrimmed(inner);
      ReadBackExactly(Lowered(inner), inner);
    case MapOf(key, value) =>
      ParseMapOf(text, key, value);
      LoweredIsTrimmed(key);
      LoweredIsTrimmed(value);
      ReadBackExactly(Lowered(key), key);
      ReadBackExactly(Lowered(value), value);
    case RowOf(fields) =>
      LoweredRow(fields);
      SplitFields(fields, "");
      ParseRowText(text, JoinComma(LoweredAll(fields)), LoweredAll(fields));
      FieldsExactly(fields, |text|);
    case _ =>
      LoweredLeaf(t);
      ParseLeafText(text, t);
  }

  lemma ParseMapOf(text: string, key: DataType, value: DataType)
    requires Lower(Trim(text)) == Lowered(MapOf(key, value))
    ensures ParseTrino(text) == MapOf(ParseTrino(Lowered(key)), ParseTrino(Lowered(value)))
  {
    LoweredMap(key, value);
    SplitTwo(key, value);
    ParseMapText(text, Lowered(key) + ", " + Lowered(value), Lowered(key), Lowered(value));
  }

  lemma FirstField(fields: seq<DataType>, bound: nat)
    requires fields != [] && forall i :: 0 <= i < |fields| ==> |LoweredAll(fields)[i]| < bound
    ensures forall i :: 0 <= i < |fields| - 1 ==> |LoweredAll(fields[1..])[i]| < bound
    ensures ParseFields(LoweredAll(fields), bound)
         == [ParseTrino(AfterSpace(Lowered(fields[0])))] + ParseFields(LoweredAll(fields[1..]), bound)
  {
    var rest := fields[1..];
    forall i | 0 <= i < |rest| ensures |LoweredAll(rest)[i]| < bound {
      assert LoweredAll(rest)[i] == LoweredAll(fields)[i + 1];
    }
    assert LoweredAll(fields)[1..] == LoweredAll(rest);
  }

  lemma {:induction false} FieldsExactly(fields: seq<DataType>, bound: nat)
    requires forall i :: 0 <= i < |fields| ==> |LoweredAll(fields)[i]| < bound
    ensures ParseFields(LoweredAll(fields), bound) == fields <==> FieldsRoundTrip(fields)
    decreases fields, 0
  {
    if fields != [] {
      FirstField(fields, bound);
      FieldsExactly(fields[1..], bound);
      FieldExactly(fields[0]);
      SameLists(
        ParseTrino(AfterSpace(Lowered(fields[0]))), ParseFields(LoweredAll(fields[1..]), bound), fields);
    }
  }

  lemma SameLists(first: DataType, rest: seq<DataType>, fields: seq<DataType>)
    requires fields != []
    ensures [first] + rest == fields <==> first == fields[0] && rest == fields[1..]
  {
    assert fields == [fields[0]] + fields[1..];
    assert ([first] + rest)[0] == first && ([first] + rest)[1..] == rest;
  }

  lemma {:induction false} FieldExactly(field: DataType)
    ensures ParseTrino(AfterSpace(Lowered(field))) == field <==> RoundTrips(field) && !PrintsSpace(field)
    decreases field, 2
  {
    if PrintsSpace(field) {
      SpacedFieldLost(field);
    } else {
      NoSpaceWhole(Lowered(field));
      LoweredIsTrimmed(field);
      ReadBackExactly(Lowered(field), field);
    }
  }

  /** Exactly which types are read back from their own printed form. */
  lemma RoundTripExactly(t: DataType)
    ensures ParseTrino(Print(t)) == t <==> RoundTrips(t)
  {
    PrintIsTrimmed(t);
    ReadBackExactly(Print(t), t);
  }

  lemma LowerKeepsSpace(c: char)
    ensures IsWhitespace(LowerChar(c)) == IsWhitespace(c)
  {
  }

  lemma PrintIsTrimmed(t: DataType)
    ensures Trim(Print(t)) == Print(t)
  {
    LoweredSolid(t);
    SolidBeforeLower(Print(t));
    TrimSolid(Print(t));
  }

  lemma SolidBeforeLower(text: string)
    requires IsSolid(Lower(text))
    ensures IsSolid(text)
  {
    assert |Lower(text)| == |text|;
    assert Lower(text)[0] == LowerChar(text[0]);
    assert Lower(text)[|text| - 1] == LowerChar(text[|text| - 1]);
    LowerKeepsSpace(text[0]);
    LowerKeepsSpace(text[|text| - 1]);
  }

  /** A time zone is lost even on its own, and so is a ROW of one ARRAY of MAPs. */
  lemma LostTypes()
    ensures ParseTrino(Print(TimestampTz)) != TimestampTz
    ensures var t := RowOf([ArrayOf(MapOf(Integer, Integer))]); ParseTrino(Print(t)) != t
  {
    RoundTripExactly(TimestampTz);
    var t := RowOf([ArrayOf(MapOf(Integer, Integer))]);
    RoundTripExactly(t);
    LoweredArray(MapOf(Integer, Integer));
    LoweredMap(Integer, Integer);
    var inner := Lowered(MapOf(Integer, Integer));
    assert ' ' in ", ";
    assert ' ' in Lowered(Integer) + ", " + Lowered(Integer);
    assert ' ' in inner && ' ' in Lowered(ArrayOf(MapOf(Integer, Integer)));
  }
}
