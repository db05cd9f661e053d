/**
 Table schemas as the storage backends see them, and their wire form
 (backend/schema/schema.h, backend/schema/schema.cc).
 */
module Schema {
  import opened Basics

  datatype ColumnType =
    | Unknown | Int64 | Float64 | Boolean | String | Bytes | Date | Time | Datetime | Timestamp
    | Numeric | Bignumeric | Json | Geography | Array | Struct

  datatype ColumnMode = Nullable | Required | Repeated

  datatype Column = Column(
    name: string,
    typ: ColumnType,
    mode: ColumnMode,
    description: string,
    rawType: string,
    fields: seq<Column>)

  /** The wire message. */
  datatype FieldSchema = FieldSchema(
    name: string,
    typ: string,
    mode: string,
    description: string,
    fields: seq<FieldSchema>)

  predicate HasName(cols: seq<Column>, name: string) {
    exists i :: 0 <= i < |cols| && cols[i].name == name
  }

  /** Index of the first column called `name`, or -1. */
  function IndexOf(cols: seq<Column>, name: string): int {
    if cols == [] then -1
    else if cols[0].name == name then 0
    else var k := IndexOf(cols[1..], name); if k < 0 then -1 else k + 1
  }

  lemma {:induction false} IndexOfFirst(cols: seq<Column>, name: string)
    ensures var k := IndexOf(cols, name);
            if HasName(cols, name)
            then 0 <= k < |cols| && cols[k].name == name && forall j | 0 <= j < k :: cols[j].name != name
            else k == -1
  {
    if cols != [] {
      IndexOfFirst(cols[1..], name);
      if cols[0].name != name && HasName(cols, name) {
        var i :| 0 <= i < |cols| && cols[i].name == name;
        assert cols[1..][i - 1].name == name;
      }
    }
  }

  // ----- Names -----

  function ColumnTypeName(t: ColumnType): string {
    match t
    case Int64 => "INT64"
    case Float64 => "FLOAT64"
    case Boolean => "BOOL"
    case String => "STRING"
    case Bytes => "BYTES"
    case Date => "DATE"
    case Time => "TIME"
    case Datetime => "DATETIME"
    case Timestamp => "TIMESTAMP"
    case Numeric => "NUMERIC"
    case Bignumeric => "BIGNUMERIC"
    case Json => "JSON"
    case Geography => "GEOGRAPHY"
    case Array => "ARRAY"
    case Struct => "STRUCT"
    case Unknown => ""
  }

  function ParseColumnType(name: string): ColumnType {
    TypeOfFolded(Lower(name))
  }

  function TypeOfFolded(n: string): ColumnType {
    if n == "int64" || n == "integer" then Int64
    else if n == "float64" || n == "float" then Float64
    else if n == "bool" || n == "boolean" then Boolean
    else if n == "string" then String
    else if n == "bytes" then Bytes
    else if n == "date" then Date
    else if n == "time" then Time
    else if n == "datetime" then Datetime
    else if n == "timestamp" then Timestamp
    else if n == "numeric" then Numeric
    else if n == "bignumeric" || n == "bigdecimal" then Bignumeric
    else if n == "json" then Json
    else if n == "geography" then Geography
    else if n == "array" then Array
    else if n == "struct" || n == "record" then Struct
    else Unknown
  }

  function ColumnModeName(m: ColumnMode): string {
    match m
    case Nullable => "NULLABLE"
    case Required => "REQUIRED"
    case Repeated => "REPEATED"
  }

  function ParseColumnMode(name: string): ColumnMode {
    var n := Lower(name);
    if n == "required" then Required
    else if n == "repeated" then Repeated
    else Nullable
  }

  lemma LowerTypeNames()
    ensures Lower("INT64") == "int64" && Lower("FLOAT64") == "float64" && Lower("BOOL") == "bool"
    ensures Lower("STRING") == "string" && Lower("BYTES") == "bytes" && Lower("DATE") == "date"
    ensures Lower("TIME") == "time" && Lower("DATETIME") == "datetime" && Lower("") == ""
  {
  }

  lemma LowerMoreTypeNames()
    ensures Lower("TIMESTAMP") == "timestamp" && Lower("NUMERIC") == "numeric"
    ensures Lower("BIGNUMERIC") == "bignumeric" && Lower("JSON") == "json" && Lower("GEOGRAPHY") == "geography"
    ensures Lower("ARRAY") == "array" && Lower("STRUCT") == "struct" && Lower("RANGE") == "range"
  {
  }

  /** The second spelling of a type, or its own name when it has one only. */
  function Alias(t: ColumnType): string {
    match t
    case Int64 => "INTEGER"
    case Float64 => "FLOAT"
    case Boolean => "BOOLEAN"
    case Bignumeric => "BIGDECIMAL"
    case Struct => "RECORD"
    case _ => ColumnTypeName(t)
  }

  function FoldedName(t: ColumnType): string {
    match t
    case Int64 => "int64"
    case Float64 => "float64"
    case Boolean => "bool"
    case String => "string"
    case Bytes => "bytes"
    case Date => "date"
    case Time => "time"
    case Datetime => "datetime"
    case Timestamp => "timestamp"
    case Numeric => "numeric"
    case Bignumeric => "bignumeric"
    case Json => "json"
    case Geography => "geography"
    case Array => "array"
    case Struct => "struct"
    case Unknown => ""
  }

  function FoldedAlias(t: ColumnType): string {
    match t
    case Int64 => "integer"
    case Float64 => "float"
    case Boolean => "boolean"
    case Bignumeric => "bigdecimal"
    case Struct => "record"
    case _ => FoldedName(t)
  }

  lemma NamesFold(t: ColumnType)
    ensures Lower(ColumnTypeName(t)) == FoldedName(t)
  {
    LowerTypeNames();
    LowerMoreTypeNames();
  }

  lemma AliasesFold(t: ColumnType)
    ensures Lower(Alias(t)) == FoldedAlias(t)
  {
    NamesFold(t);
    assert Lower("INTEGER") == "integer" && Lower("FLOAT") == "float" && Lower("BOOLEAN") == "boolean";
    assert Lower("BIGDECIMAL") == "bigdecimal" && Lower("RECORD") == "record";
  }

  lemma FoldedNameReads(t: ColumnType)
    ensures TypeOfFolded(FoldedName(t)) == t
  {
    match t
    case Int64 =>
    case Float64 =>
    case Boolean =>
    case String =>
    case Bytes =>
    case Date =>
    case Time => assert "time"[0] != "date"[0] && "time"[0] != "bool"[0];
    case Datetime =>
    case Timestamp =>
    case Numeric =>
    case Bignumeric =>
    case Json =>
    case Geography =>
    case Array =>
    case Struct =>
    case Unknown =>
  }

  /** Parsing inverts naming for every type. */
  lemma TypeNamesParseBack(t: ColumnType)
    ensures ParseColumnType(ColumnTypeName(t)) == t
  {
    NamesFold(t);
    FoldedNameReads(t);
  }

  lemma FoldedReads(n: string, t: ColumnType)
    requires TypeOfFolded(n) == t && t != Unknown
    ensures n == FoldedName(t) || n == FoldedAlias(t)
  {
  }

  lemma AliasReads(t: ColumnType)
    ensures TypeOfFolded(FoldedAlias(t)) == t
  {
    FoldedNameReads(t);
  }

  /** A type is read from its name and its alias, in any case, and from nothing else. */
  lemma TypeReadIff(name: string, t: ColumnType)
    requires t != Unknown
    ensures ParseColumnType(name) == t <==>
            Lower(name) == Lower(ColumnTypeName(t)) || Lower(name) == Lower(Alias(t))
  {
    NamesFold(t);
    AliasesFold(t);
    ReadIffFolded(Lower(name), t);
  }

  lemma ReadIffFolded(n: string, t: ColumnType)
    requires t != Unknown
    ensures TypeOfFolded(n) == t <==> n == FoldedName(t) || n == FoldedAlias(t)
  {
    if TypeOfFolded(n) == t { FoldedReads(n, t); }
    FoldedNameReads(t);
    AliasReads(t);
  }

  lemma ModeNamesParseBack(m: ColumnMode)
    ensures ParseColumnMode(ColumnModeName(m)) == m && ParseColumnMode("") == Nullable
  {
    assert Lower("NULLABLE") == "nullable" && Lower("REQUIRED") == "required" && Lower("REPEATED") == "repeated";
  }

  /** Only the two names in any case give another mode than NULLABLE. */
  lemma ModeReadIff(name: string, m: ColumnMode)
    requires m != Nullable
    ensures ParseColumnMode(name) == m <==> Lower(name) == Lower(ColumnModeName(m))
  {
    ModeNamesParseBack(m);
    assert Lower("REQUIRED") == "required" && Lower("REPEATED") == "repeated";
  }

  lemma RangeIsUnknown()
    ensures ParseColumnType("RANGE") == Unknown
  {
    LowerMoreTypeNames();
  }

  // ----- Wire conversions -----

  function FromProto(p: FieldSchema): Result<Column>
    decreases p, 1
  {
    if p.name == "" then Err(InvalidArgument)
    else match FromProtos(p.fields)
         case Err(code) => Err(code)
         case Ok(fields) =>
           var typ := ParseColumnType(p.typ);
           Ok(Column(p.name, typ, ParseColumnMode(p.mode), p.description, if typ.Unknown? then p.typ else "", fields))
  }

  function FromProtos(ps: seq<FieldSchema>): Result<seq<Column>>
    decreases ps, 0
  {
    if ps == [] then Ok([])
    else match FromProto(ps[0])
         case Err(code) => Err(code)
         case Ok(first) =>
           match FromProtos(ps[1..])
           case Err(code) => Err(code)
           case Ok(rest) => Ok([first] + rest)
  }

  function ToProto(c: Column): FieldSchema
    decreases c, 1
  {
    var typ := if c.typ.Unknown? && c.rawType != "" then c.rawType else ColumnTypeName(c.typ);
    FieldSchema(c.name, typ, ColumnModeName(c.mode), c.description, ToProtos(c.fields))
  }

  function ToProtos(cs: seq<Column>): seq<FieldSchema>
    decreases cs, 0
  {
    if cs == [] then [] else [ToProto(cs[0])] + ToProtos(cs[1..])
  }

  method ColumnSchemaFromProto(p: FieldSchema) returns (r: Result<Column>)
    ensures r == FromProto(p)
    decreases p
  {
    if p.name == "" { return Err(InvalidArgument); }
    var typ := ParseColumnType(p.typ);
    var fields: seq<Column> := [];
    var i := 0;
    assert p.fields[0..] == p.fields;
    PrependNothing(FromProtos(p.fields));
    while i < |p.fields|
      invariant 0 <= i <= |p.fields|
      invariant FromProtos(p.fields) == Prepend(fields, FromProtos(p.fields[i..]))
    {
      assert p.fields[i..][1..] == p.fields[i + 1..];
      var child := ColumnSchemaFromProto(p.fields[i]);
      if child.Err? { return child; }
      PrependStep(fields, child.value, FromProtos(p.fields[i + 1..]));
      fields := fields + [child.value];
      i := i + 1;
    }
    assert fields + [] == fields;
    r := Ok(Column(p.name, typ, ParseColumnMode(p.mode), p.description, if typ.Unknown? then p.typ else "", fields));
  }

  method ColumnSchemaToProto(c: Column) returns (p: FieldSchema)
    ensures p == ToProto(c)
    decreases c
  {
    var typ := if c.typ.Unknown? && c.rawType != "" then c.rawType else ColumnTypeName(c.typ);
    var fields: seq<FieldSchema> := [];
    var i := 0;
    assert c.fields[0..] == c.fields;
    while i < |c.fields|
      invariant 0 <= i <= |c.fields|
      invariant fields + ToProtos(c.fields[i..]) == ToProtos(c.fields)
    {
      assert c.fields[i..][1..] == c.fields[i + 1..];
      var child := ColumnSchemaToProto(c.fields[i]);
      fields := fields + [child];
      i := i + 1;
    }
    p := FieldSchema(c.name, typ, ColumnModeName(c.mode), c.description, fields);
  }

  /** Named throughout, a raw type only on unknown types, and none that spells a known one. */
  predicate Canonical(c: Column)
    decreases c, 1
  {
    && c.name != ""
    && (if c.typ.Unknown? then ParseColumnType(c.rawType).Unknown? else c.rawType == "")
    && AllCanonical(c.fields)
  }

  predicate AllCanonical(cs: seq<Column>)
    decreases cs, 0
  {
    cs == [] || (Canonical(cs[0]) && AllCanonical(cs[1..]))
  }

  /** A column survives the wire exactly when it is canonical; only an empty name is refused. */
  lemma {:induction false} ProtoRoundTripIff(c: Column)
    ensures FromProto(ToProto(c)) == Ok(c) <==> Canonical(c)
    ensures FromProto(ToProto(c)).Err? ==> !Canonical(c)
    decreases c, 1
  {
    TypeNamesParseBack(c.typ);
    ModeNamesParseBack(c.mode);
    ProtosRoundTripIff(c.fields);
  }

  lemma {:induction false} ProtosRoundTripIff(cs: seq<Column>)
    ensures FromProtos(ToProtos(cs)) == Ok(cs) <==> AllCanonical(cs)
    decreases cs, 0
  {
    if cs != [] {
      ProtoRoundTripIff(cs[0]);
      ProtosRoundTripIff(cs[1..]);
      assert ToProtos(cs)[1..] == ToProtos(cs[1..]);
      assert cs == [cs[0]] + cs[1..];
    }
  }

  /** Whatever comes off the wire is canonical, so it round-trips from then on. */
  lemma {:induction false} FromProtoCanonical(p: FieldSchema)
    requires FromProto(p).Ok?
    ensures Canonical(FromProto(p).value)
    decreases p, 1
  {
    FromProtosCanonical(p.fields);
  }

  lemma {:induction false} FromProtosCanonical(ps: seq<FieldSchema>)
    requires FromProtos(ps).Ok?
    ensures AllCanonical(FromProtos(ps).value)
    decreases ps, 0
  {
    if ps != [] {
      FromProtoCanonical(ps[0]);
      FromProtosCanonical(ps[1..]);
      assert FromProtos(ps).value[1..] == FromProtos(ps[1..]).value;
    }
  }
}
