/**
 Types and nullability of columns
 (crates/phlo-transform-core/src/semantic.rs).
 */
module Semantic {
  import opened Wrappers
  import opened Identity
  import opened Sql

  datatype Nullability = NotNull | Nullable | UnknownNull {
    /** Combine two nullabilities across a set operation or an operator. */
    function Merge(other: Nullability): Nullability {
      if this == NotNull && other == NotNull then NotNull
      else if this == UnknownNull || other == UnknownNull then UnknownNull
      else Nullable
    }
  }

  datatype DataType =
    | Boolean | TinyInt | SmallInt | Integer | BigInt | Real | Double | Decimal
    | Varchar | Varbinary | Date | Time | Timestamp | TimestampTz
    | ArrayOf(inner: DataType)
    | MapOf(key: DataType, value: DataType)
    | RowOf(fields: seq<DataType>)
    | Unknown

  predicate IsNumeric(t: DataType) {
    t.TinyInt? || t.SmallInt? || t.Integer? || t.BigInt? || t.Real? || t.Double? || t.Decimal?
  }

  function Rank(t: DataType): nat {
    match t
    case TinyInt => 1
    case SmallInt => 2
    case Integer => 3
    case BigInt => 4
    case Real => 5
    case Double => 6
    case Decimal => 7
    case _ => 0
  }

  /** Widest of two numeric types, or unknown if not comparable. */
  function Widen(left: DataType, right: DataType): DataType {
    if left.Unknown? || right.Unknown? then Unknown
    else if left == right then left
    else if IsNumeric(left) && IsNumeric(right) then (if Rank(left) >= Rank(right) then left else right)
    else Unknown
  }

  lemma WidenNumeric(a: DataType, b: DataType)
    requires IsNumeric(a) && IsNumeric(b)
    ensures IsNumeric(Widen(a, b)) && Rank(Widen(a, b)) == if Rank(a) >= Rank(b) then Rank(a) else Rank(b)
  {
  }

  lemma RankTells(a: DataType, b: DataType)
    requires IsNumeric(a) && IsNumeric(b) && Rank(a) == Rank(b)
    ensures a == b
  {
  }

  lemma WidenMixed(a: DataType, b: DataType)
    requires !(IsNumeric(a) && IsNumeric(b))
    ensures Widen(a, b) == if a == b then a else Unknown
  {
  }

  lemma NumericGroups(a: DataType, b: DataType, c: DataType)
    requires IsNumeric(a) && IsNumeric(b) && IsNumeric(c)
    ensures Widen(a, Widen(b, c)) == Widen(Widen(a, b), c)
  {
    WidenNumeric(a, b);
    WidenNumeric(b, c);
    WidenNumeric(a, Widen(b, c));
    WidenNumeric(Widen(a, b), c);
    RankTells(Widen(a, Widen(b, c)), Widen(Widen(a, b), c));
  }

  lemma MixedGroups(a: DataType, b: DataType, c: DataType)
    requires !IsNumeric(b) || (!IsNumeric(a) && !IsNumeric(c))
    ensures Widen(a, Widen(b, c)) == Widen(Widen(a, b), c)
  {
    WidenMixed(a, b);
    WidenMixed(b, c);
    WidenMixed(Widen(a, b), c);
    WidenMixed(a, Widen(b, c));
  }

  lemma HalfNumericGroups(a: DataType, b: DataType, c: DataType)
    requires IsNumeric(b) && IsNumeric(a) != IsNumeric(c)
    ensures Widen(a, Widen(b, c)) == Unknown && Widen(Widen(a, b), c) == Unknown
  {
    if IsNumeric(a) {
      WidenNumeric(a, b);
      WidenMixed(b, c);
      WidenMixed(Widen(a, b), c);
    } else {
      WidenNumeric(b, c);
      WidenMixed(a, b);
      WidenMixed(a, Widen(b, c));
    }
  }

  /** Widening does not depend on how branches are grouped. */
  lemma WidenAssociates(a: DataType, b: DataType, c: DataType)
    ensures Widen(a, Widen(b, c)) == Widen(Widen(a, b), c)
  {
    if IsNumeric(b) && IsNumeric(a) && IsNumeric(c) {
      NumericGroups(a, b, c);
    } else if IsNumeric(b) && IsNumeric(a) != IsNumeric(c) {
      HalfNumericGroups(a, b, c);
    } else {
      MixedGroups(a, b, c);
    }
  }

  /** Nor on their order; and it never invents a type. */
  lemma WidenCommutes(a: DataType, b: DataType)
    ensures Widen(a, b) == Widen(b, a) && Widen(a, a) == a
    ensures Widen(a, b) == a || Widen(a, b) == b || Widen(a, b) == Unknown
  {
    if IsNumeric(a) && IsNumeric(b) {
      WidenNumeric(a, b);
      WidenNumeric(b, a);
      RankTells(Widen(a, b), Widen(b, a));
    } else {
      WidenMixed(a, b);
      WidenMixed(b, a);
    }
  }

  // -- Printing ----------------------------------------------------------------------------------

  function JoinComma(parts: seq<string>): string {
    if parts == [] then "" else if |parts| == 1 then parts[0] else parts[0] + ", " + JoinComma(parts[1..])
  }

  function Bracketed(head: string, body: string): string {
    head + "(" + body + ")"
  }

  function LeafName(t: DataType): string {
    match t
    case Boolean => "BOOLEAN"
    case TinyInt => "TINYINT"
    case SmallInt => "SMALLINT"
    case Integer => "INTEGER"
    case BigInt => "BIGINT"
    case Real => "REAL"
    case Double => "DOUBLE"
    case Decimal => "DECIMAL"
    case Varchar => "VARCHAR"
    case Varbinary => "VARBINARY"
    case Date => "DATE"
    case Time => "TIME"
    case Timestamp => "TIMESTAMP"
    case TimestampTz => "TIMESTAMP WITH TIME ZONE"
    case _ => "UNKNOWN"
  }

  function Print(t: DataType): string
    decreases t, 1
  {
    match t
    case ArrayOf(inner) => Bracketed("ARRAY", Print(inner))
    case MapOf(key, value) => Bracketed("MAP", Print(key) + ", " + Print(value))
    case RowOf(fields) => Bracketed("ROW", JoinComma(PrintAll(fields)))
    case _ => LeafName(t)
  }

  function PrintAll(types: seq<DataType>): (r: seq<string>)
    ensures |r| == |types|
    decreases types, 0
  {
    if types == [] then [] else [Print(types[0])] + PrintAll(types[1..])
  }

  // -- Parsing -------------------------------------------------------------------------------------

  predicate IsOpen(c: char) {
    c == '(' || c == '<' || c == '['
  }

  predicate IsClose(c: char) {
    c == ')' || c == '>' || c == ']'
  }

  /** Split at commas outside brackets; a last part of nothing but space is dropped. */
  function SplitFrom(text: string, depth: nat, current: string): (parts: seq<string>)
    ensures forall i :: 0 <= i < |parts| ==> |parts[i]| <= |current| + |text|
    decreases |text|
  {
    if text == "" then (if Trim(current) == "" then [] else TrimShorter(current); [Trim(current)])
    else if text[0] == ',' && depth == 0 then
      TrimShorter(current);
      [Trim(current)] + SplitFrom(text[1..], 0, "")
    else
      var next := if IsOpen(text[0]) then depth + 1 else if IsClose(text[0]) && depth > 0 then depth - 1 else depth;
      SplitFrom(text[1..], next, current + [text[0]])
  }

  lemma {:induction false} TrimStartShorter(text: string)
    ensures |TrimStart(text)| <= |text|
    ensures exists n :: 0 <= n <= |text| && TrimStart(text) == text[n..]
  {
    if text != "" && IsWhitespace(text[0]) {
      TrimStartShorter(text[1..]);
      var n :| 0 <= n <= |text| - 1 && TrimStart(text[1..]) == text[1..][n..];
      assert text[1..][n..] == text[n + 1..];
    } else {
      assert text == text[0..];
    }
  }

  lemma {:induction false} TrimEndShorter(text: string)
    ensures |TrimEnd(text)| <= |text|
    ensures exists n :: 0 <= n <= |text| && TrimEnd(text) == text[..n]
  {
    if text != "" && IsWhitespace(text[|text| - 1]) {
      TrimEndShorter(text[..|text| - 1]);
      var n :| 0 <= n <= |text| - 1 && TrimEnd(text[..|text| - 1]) == text[..|text| - 1][..n];
      assert text[..|text| - 1][..n] == text[..n];
    } else {
      assert text == text[..|text|];
    }
  }

  lemma TrimShorter(text: string)
    ensures |Trim(text)| <= |text|
  {
    TrimStartShorter(text);
    TrimEndShorter(TrimStart(text));
  }

  /** The bracketed argument list that follows a keyword. */
  function TypeArguments(lower: string, keyword: string): (r: Option<seq<string>>)
    requires keyword <= lower && keyword != ""
    ensures r.Some? ==> forall i :: 0 <= i < |r.value| ==> |r.value[i]| < |lower|
  {
    TrimStartShorter(lower[|keyword|..]);
    var rest := TrimStart(lower[|keyword|..]);
    if |rest| < 2 then None
    else if (rest[0] == '(' && rest[|rest| - 1] == ')') || (rest[0] == '<' && rest[|rest| - 1] == '>')
    then Some(SplitFrom(rest[1..|rest| - 1], 0, ""))
    else None
  }

  /** What follows the first space, or everything. */
  function AfterSpace(text: string): (r: string)
    ensures |r| <= |text|
  {
    if text == "" then "" else if text[0] == ' ' then text[1..] else
      var rest := AfterSpace(text[1..]);
      if ' ' in text[1..] then rest else text
  }

  /** The text up to the first bracket. */
  function BeforeBracket(text: string): string {
    if text == "" || text[0] == '(' || text[0] == '<' then "" else [text[0]] + BeforeBracket(text[1..])
  }

  predicate Contains(text: string, part: string) {
    part <= text || (text != "" && Contains(text[1..], part))
  }

  function ParseLeaf(lower: string): DataType {
    ParseName(Trim(BeforeBracket(lower)), lower)
  }

  function ParseName(base: string, lower: string): DataType {
    if base == "boolean" then Boolean
    else if base == "tinyint" then TinyInt
    else if base == "smallint" then SmallInt
    else if base == "integer" || base == "int" then Integer
    else if base == "bigint" then BigInt
    else if base == "real" then Real
    else if base == "double" then Double
    else if base == "decimal" || base == "numeric" then Decimal
    else if base == "varchar" || base == "char" then Varchar
    else if base == "varbinary" then Varbinary
    else if base == "date" then Date
    else if base == "time" then Time
    else if base == "timestamp" then (if Contains(lower, "with time zone") then TimestampTz else Timestamp)
    else Unknown
  }

  /** Terminates on every text: arguments are shorter than the type they are arguments of. */
  function ParseTrino(text: string): DataType
    decreases |text|, 1
  {
    TrimShorter(text);
    var lower := Lower(Trim(text));
    if "array" <= lower then
      var args := TypeArguments(lower, "array");
      if args.Some? && args.value != [] then ArrayOf(ParseTrino(args.value[0])) else ArrayOf(Unknown)
    else if "map" <= lower then
      var args := TypeArguments(lower, "map");
      if args.Some? && |args.value| == 2 then MapOf(ParseTrino(args.value[0]), ParseTrino(args.value[1]))
      else MapOf(Unknown, Unknown)
    else if "row" <= lower then
      var args := TypeArguments(lower, "row");
      RowOf(if args.Some? then ParseFields(args.value, |text|) else [])
    else ParseLeaf(lower)
  }

  /** A field is a name and a type, or a type alone. */
  function ParseFields(fields: seq<string>, bound: nat): (r: seq<DataType>)
    requires forall i :: 0 <= i < |fields| ==> |fields[i]| < bound
    ensures |r| == |fields|
    decreases bound, 0, |fields|
  {
    if fields == [] then [] else [ParseTrino(AfterSpace(fields[0]))] + ParseFields(fields[1..], bound)
  }

  method SplitTopLevel(text: string) returns (parts: seq<string>)
    ensures parts == SplitFrom(text, 0, "")
  {
    parts := [];
    var depth: nat := 0;
    var current := "";
    for i := 0 to |text|
      invariant parts + SplitFrom(text[i..], depth, current) == SplitFrom(text, 0, "")
    {
      var c := text[i];
      assert text[i..][1..] == text[i + 1..];
      if c == ',' && depth == 0 {
        parts := parts + [Trim(current)];
        current := "";
      } else {
        if IsOpen(c) {
          depth := depth + 1;
        } else if IsClose(c) && depth > 0 {
          depth := depth - 1;
        }
        current := current + [c];
      }
    }
    if Trim(current) != "" {
      parts := parts + [Trim(current)];
    }
  }

  // -- What printed types look like ------------------------------------------------------------------

  /** The lower-case printed form. */
  function Lowered(t: DataType): string {
    Lower(Print(t))
  }

  lemma {:induction false} LowerConcat(a: string, b: string)
    ensures Lower(a + b) == Lower(a) + Lower(b)
  {
    forall i | 0 <= i < |a + b| ensures Lower(a + b)[i] == (Lower(a) + Lower(b))[i] {
      assert Lower(a + b)[i] == LowerChar((a + b)[i]);
    }
  }

  function LoweredAll(types: seq<DataType>): (r: seq<string>)
    ensures |r| == |types| && forall i :: 0 <= i < |types| ==> r[i] == Lowered(types[i])
  {
    if types == [] then [] else [Lowered(types[0])] + LoweredAll(types[1..])
  }

  lemma LowerComma(a: string, b: string)
    ensures Lower(a + ", " + b) == Lower(a) + ", " + Lower(b)
  {
    LowerConcat(a + ", ", b);
    LowerConcat(a, ", ");
    assert Lower(", ") == ", ";
  }

  lemma {:induction false} LowerJoin(types: seq<DataType>)
    ensures Lower(JoinComma(PrintAll(types))) == JoinComma(LoweredAll(types))
  {
    if |types| == 1 {
      assert PrintAll(types) == [Print(types[0])];
    } else if |types| > 1 {
      LowerJoin(types[1..]);
      LowerComma(Print(types[0]), JoinComma(PrintAll(types[1..])));
      JoinFirst(Print(types[0]), PrintAll(types[1..]));
      JoinFirst(Lowered(types[0]), LoweredAll(types[1..]));
    }
  }

  lemma JoinFirst(first: string, rest: seq<string>)
    requires rest != []
    ensures JoinComma([first] + rest) == first + ", " + JoinComma(rest)
  {
    assert ([first] + rest)[1..] == rest;
  }

  lemma LowerBracketed(head: string, lowered: string, body: string)
    requires Lower(head) == lowered
    ensures Lower(Bracketed(head, body)) == Bracketed(lowered, Lower(body))
  {
    LowerConcat(head + "(" + body, ")");
    LowerConcat(head + "(", body);
    LowerConcat(head, "(");
    assert Lower("(") == "(" && Lower(")") == ")";
  }

  lemma LowerHeads()
    ensures Lower("ARRAY") == "array" && Lower("MAP") == "map" && Lower("ROW") == "row"
  {
  }

  lemma LoweredArray(inner: DataType)
    ensures Lowered(ArrayOf(inner)) == Bracketed("array", Lowered(inner))
  {
    LowerHeads();
    LowerBracketed("ARRAY", "array", Print(inner));
  }

  lemma LoweredMap(key: DataType, value: DataType)
    ensures Lowered(MapOf(key, value)) == Bracketed("map", Lowered(key) + ", " + Lowered(value))
  {
    LowerHeads();
    LowerBracketed("MAP", "map", Print(key) + ", " + Print(value));
    LowerComma(Print(key), Print(value));
  }

  lemma LoweredRow(fields: seq<DataType>)
    ensures Lowered(RowOf(fields)) == Bracketed("row", JoinComma(LoweredAll(fields)))
  {
    LowerHeads();
    LowerBracketed("ROW", "row", JoinComma(PrintAll(fields)));
    LowerJoin(fields);
  }

  predicate IsLeaf(t: DataType) {
    !t.ArrayOf? && !t.MapOf? && !t.RowOf?
  }

  function LeafText(t: DataType): string {
    match t
    case Boolean => "boolean"
    case TinyInt => "tinyint"
    case SmallInt => "smallint"
    case Integer => "integer"
    case BigInt => "bigint"
    case Real => "real"
    case Double => "double"
    case Decimal => "decimal"
    case Varchar => "varchar"
    case Varbinary => "varbinary"
    case Date => "date"
    case Time => "time"
    case Timestamp => "timestamp"
    case TimestampTz => "timestamp with time zone"
    case _ => "unknown"
  }

  lemma LowerIs(text: string, lowered: string)
    requires |text| == |lowered| && forall i :: 0 <= i < |text| ==> LowerChar(text[i]) == lowered[i]
    ensures Lower(text) == lowered
  {
  }

  lemma LowerSmall()
    ensures Lower("BOOLEAN") == "boolean" && Lower("TINYINT") == "tinyint" && Lower("SMALLINT") == "smallint"
  {
    LowerIs("BOOLEAN", "boolean");
    LowerIs("TINYINT", "tinyint");
    LowerIs("SMALLINT", "smallint");
  }

  lemma LowerWide()
    ensures Lower("INTEGER") == "integer" && Lower("BIGINT") == "bigint" && Lower("REAL") == "real"
  {
    LowerIs("INTEGER", "integer");
    LowerIs("BIGINT", "bigint");
    LowerIs("REAL", "real");
  }

  lemma LowerExact()
    ensures Lower("DOUBLE") == "double" && Lower("DECIMAL") == "decimal" && Lower("VARCHAR") == "varchar"
  {
    LowerIs("DOUBLE", "double");
    LowerIs("DECIMAL", "decimal");
    LowerIs("VARCHAR", "varchar");
  }

  lemma LowerBinary()
    ensures Lower("VARBINARY") == "varbinary" && Lower("DATE") == "date" && Lower("TIME") == "time"
  {
    LowerIs("VARBINARY", "varbinary");
    LowerIs("DATE", "date");
    LowerIs("TIME", "time");
  }

  lemma LowerMoment()
    ensures Lower("TIMESTAMP") == "timestamp" && Lower("UNKNOWN") == "unknown"
  {
    LowerIs("TIMESTAMP", "timestamp");
    LowerIs("UNKNOWN", "unknown");
  }

  lemma LowerZoned()
    ensures Lower("TIMESTAMP WITH TIME ZONE") == "timestamp with time zone"
  {
    LowerIs("TIMESTAMP WITH TIME ZONE", "timestamp with time zone");
  }

  lemma LoweredLeaf(t: DataType)
    requires IsLeaf(t)
    ensures Lowered(t) == LeafText(t)
  {
    LowerSmall();
    LowerWide();
    LowerExact();
    LowerBinary();
    LowerMoment();
    LowerZoned();
  }
}
