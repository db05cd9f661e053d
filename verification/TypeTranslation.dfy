/**
 Columns to GoogleSQL types and types back to wire schemas
 (backend/catalog/googlesql_catalog.cc, googlesql_catalog_find_helpers.cc,
 backend/schema/googlesql_to_bq.cc).
 */
module TypeTranslation {
  import opened Basics
  import opened Schema

  datatype Kind =
    | KBool | KInt64 | KDouble | KString | KBytes | KDate | KTime | KDatetime | KTimestamp
    | KNumeric | KBignumeric | KJson | KGeography

  /** `NullType` is a null type pointer, `OtherType` a kind BigQuery cannot represent. */
  datatype Type =
    | Scalar(kind: Kind)
    | ArrayOf(element: Type)
    | StructOf(fields: seq<StructField>)
    | RangeOf(bound: Type)
    | OtherType(id: int)
    | NullType

  datatype StructField = StructField(name: string, typ: Type)

  function KindOf(t: ColumnType): Option<Kind> {
    match t
    case Boolean => Some(KBool)
    case Int64 => Some(KInt64)
    case Float64 => Some(KDouble)
    case String => Some(KString)
    case Bytes => Some(KBytes)
    case Date => Some(KDate)
    case Time => Some(KTime)
    case Datetime => Some(KDatetime)
    case Timestamp => Some(KTimestamp)
    case Numeric => Some(KNumeric)
    case Bignumeric => Some(KBignumeric)
    case Json => Some(KJson)
    case Geography => Some(KGeography)
    case _ => None
  }

  function BqScalarName(k: Kind): string {
    match k
    case KBool => "BOOL"
    case KInt64 => "INT64"
    case KDouble => "FLOAT64"
    case KString => "STRING"
    case KBytes => "BYTES"
    case KDate => "DATE"
    case KTime => "TIME"
    case KDatetime => "DATETIME"
    case KTimestamp => "TIMESTAMP"
    case KNumeric => "NUMERIC"
    case KBignumeric => "BIGNUMERIC"
    case KJson => "JSON"
    case KGeography => "GEOGRAPHY"
  }

  // ----- Column to type -----

  function ToType(c: Column): Result<Type>
    decreases c, 1
  {
    var inner :=
      if c.typ.Struct? then
        match ToFields(c.fields)
        case Err(code) => Err(code)
        case Ok(fields) => Ok(StructOf(fields))
      else match KindOf(c.typ)
           case Some(k) => Ok(Scalar(k))
           case None => Err(InvalidArgument);
    if inner.Ok? && c.mode.Repeated? then Ok(ArrayOf(inner.value)) else inner
  }

  function ToFields(cs: seq<Column>): Result<seq<StructField>>
    decreases cs, 0
  {
    if cs == [] then Ok([])
    else match ToType(cs[0])
         case Err(code) => Err(code)
         case Ok(t) => Prepend([StructField(cs[0].name, t)], ToFields(cs[1..]))
  }

  method ScalarOrStructType(c: Column) returns (r: Result<Type>)
    ensures r == ToType(c.(mode := Nullable))
    decreases c, 0
  {
    if !c.typ.Struct? {
      var k := KindOf(c.typ);
      return if k.Some? then Ok(Scalar(k.value)) else Err(InvalidArgument);
    }
    var fields: seq<StructField> := [];
    var i := 0;
    assert c.fields[0..] == c.fields;
    PrependNothing(ToFields(c.fields));
    while i < |c.fields|
      invariant 0 <= i <= |c.fields|
      invariant ToFields(c.fields) == Prepend(fields, ToFields(c.fields[i..]))
    {
      assert c.fields[i..][1..] == c.fields[i + 1..];
      var t := ToGoogleSqlType(c.fields[i]);
      if t.Err? { return Err(t.code); }
      var field := StructField(c.fields[i].name, t.value);
      PrependStep(fields, field, ToFields(c.fields[i + 1..]));
      fields := fields + [field];
      i := i + 1;
    }
    assert fields + [] == fields;
    r := Ok(StructOf(fields));
  }

  method ToGoogleSqlType(c: Column) returns (r: Result<Type>)
    ensures r == ToType(c)
    decreases c, 1
  {
    r := ScalarOrStructType(c);
    if r.Ok? && c.mode.Repeated? { r := Ok(ArrayOf(r.value)); }
  }

  // ----- Type to wire schema -----

  /** A scalar, struct or range under the given name, with the wire's empty mode. */
  function Fill(t: Type, name: string): Result<FieldSchema>
    decreases t, 1
  {
    match t
    case Scalar(k) => Ok(FieldSchema(name, BqScalarName(k), "", "", []))
    case StructOf(fields) =>
      (match FillFields(fields)
       case Err(code) => Err(code)
       case Ok(children) => Ok(FieldSchema(name, "STRUCT", "", "", children)))
    case RangeOf(bound) =>
      (match Fill(bound, "range_element_type")
       case Err(code) => Err(code)
       case Ok(child) => Ok(FieldSchema(name, "RANGE", "", "", [child])))
    case _ => Err(InvalidArgument)
  }

  /** As `Fill`, with one array layer allowed as REPEATED mode. */
  function FillRepeatable(t: Type, name: string): Result<FieldSchema>
    decreases t, 2
  {
    if !t.ArrayOf? then Fill(t, name)
    else match Fill(t.element, name)
         case Err(code) => Err(code)
         case Ok(f) => Ok(f.(mode := "REPEATED"))
  }

  function FillFields(fields: seq<StructField>): Result<seq<FieldSchema>>
    decreases fields, 0
  {
    if fields == [] then Ok([])
    else if fields[0].name == "" then Err(InvalidArgument)
    else match FillRepeatable(fields[0].typ, fields[0].name)
         case Err(code) => Err(code)
         case Ok(f) => Prepend([f], FillFields(fields[1..]))
  }

  method FillScalarOrStruct(t: Type, name: string) returns (r: Result<FieldSchema>)
    ensures r == Fill(t, name)
    decreases t, 0
  {
    match t
    case Scalar(k) => r := Ok(FieldSchema(name, BqScalarName(k), "", "", []));
    case StructOf(fields) =>
      var children := FillStructFields(fields);
      r := if children.Ok? then Ok(FieldSchema(name, "STRUCT", "", "", children.value)) else Err(children.code);
    case RangeOf(bound) =>
      var child := FillScalarOrStruct(bound, "range_element_type");
      r := if child.Ok? then Ok(FieldSchema(name, "RANGE", "", "", [child.value])) else Err(child.code);
    case _ => r := Err(InvalidArgument);
  }

  method FillStructFields(fields: seq<StructField>) returns (r: Result<seq<FieldSchema>>)
    ensures r == FillFields(fields)
    decreases fields, 0
  {
    var out: seq<FieldSchema> := [];
    var i := 0;
    assert fields[0..] == fields;
    PrependNothing(FillFields(fields));
    while i < |fields|
      invariant 0 <= i <= |fields|
      invariant FillFields(fields) == Prepend(out, FillFields(fields[i..]))
    {
      assert fields[i..][1..] == fields[i + 1..];
      if fields[i].name == "" { return Err(InvalidArgument); }
      assert fields[i] in fields;
      var nested := TypeToFieldSchema(fields[i].typ, fields[i].name);
      if nested.Err? { return Err(nested.code); }
      PrependStep(out, nested.value, FillFields(fields[i + 1..]));
      out := out + [nested.value];
      i := i + 1;
    }
    assert out + [] == out;
    r := Ok(out);
  }

  method TypeToFieldSchema(t: Type, name: string) returns (r: Result<FieldSchema>)
    ensures r == FillRepeatable(t, name)
    decreases t, 1
  {
    if t.ArrayOf? {
      if t.element.ArrayOf? { return Err(InvalidArgument); }
      r := FillScalarOrStruct(t.element, name);
      if r.Ok? { r := Ok(r.value.(mode := "REPEATED")); }
    } else {
      r := FillScalarOrStruct(t, name);
    }
  }

  // ----- Column, type, wire, column -----

  predicate FieldsNamed(c: Column)
    decreases c, 1
  {
    c.typ.Struct? ==> AllNamed(c.fields)
  }

  predicate AllNamed(cs: seq<Column>)
    decreases cs, 0
  {
    cs == [] || (cs[0].name != "" && FieldsNamed(cs[0]) && AllNamed(cs[1..]))
  }

  /** What a type can remember of a column: REQUIRED, descriptions and stray scalar fields are gone. */
  function Remembered(c: Column): Column
    decreases c, 1
  {
    Column(c.name, c.typ, if c.mode.Repeated? then Repeated else Nullable, "", "",
           if c.typ.Struct? then RememberedAll(c.fields) else [])
  }

  function RememberedAll(cs: seq<Column>): seq<Column>
    decreases cs, 0
  {
    if cs == [] then [] else [Remembered(cs[0])] + RememberedAll(cs[1..])
  }

  /** The two scalar name tables agree. */
  lemma ScalarNamesAgree(t: ColumnType)
    requires KindOf(t).Some?
    ensures BqScalarName(KindOf(t).value) == ColumnTypeName(t)
  {
  }

  lemma ScalarNames(t: ColumnType)
    requires KindOf(t).Some?
    ensures ParseColumnType(BqScalarName(KindOf(t).value)) == t
  {
    ScalarNamesAgree(t);
    TypeNamesParseBack(t);
  }

  /**
   A translated column reflects back to the wire exactly when every nested field is named, and reads
   back as itself, up to what a type remembers, exactly when it is named too.
   */
  lemma {:induction false} ColumnTypeWireRoundTrip(c: Column)
    requires ToType(c).Ok?
    ensures FillRepeatable(ToType(c).value, c.name).Ok? <==> FieldsNamed(c)
    ensures FieldsNamed(c) ==>
              FromProto(FillRepeatable(ToType(c).value, c.name).value) ==
              if c.name == "" then Err(InvalidArgument) else Ok(Remembered(c))
    decreases c, 1
  {
    if c.typ.Struct? {
      FieldsTypeWireRoundTrip(c.fields);
      StructColumnWire(c);
    } else {
      ScalarColumnWire(c);
    }
  }

  lemma ScalarColumnWire(c: Column)
    requires ToType(c).Ok? && !c.typ.Struct?
    ensures FillRepeatable(ToType(c).value, c.name).Ok?
    ensures FromProto(FillRepeatable(ToType(c).value, c.name).value) ==
            if c.name == "" then Err(InvalidArgument) else Ok(Remembered(c))
  {
    ModeNamesParseBack(Repeated);
    ScalarNames(c.typ);
  }

  lemma StructColumnWire(c: Column)
    requires ToType(c).Ok? && c.typ.Struct?
    requires FillFields(ToFields(c.fields).value).Ok? <==> AllNamed(c.fields)
    requires AllNamed(c.fields) ==>
               FromProtos(FillFields(ToFields(c.fields).value).value) == Ok(RememberedAll(c.fields))
    ensures FillRepeatable(ToType(c).value, c.name).Ok? <==> FieldsNamed(c)
    ensures FieldsNamed(c) ==>
              FromProto(FillRepeatable(ToType(c).value, c.name).value) ==
              if c.name == "" then Err(InvalidArgument) else Ok(Remembered(c))
  {
    var fields := ToFields(c.fields).value;
    if AllNamed(c.fields) {
      var mode := if c.mode.Repeated? then "REPEATED" else "";
      StructWireReads(c.name, mode, FillFields(fields).value, RememberedAll(c.fields));
    }
  }

  lemma StructWireReads(name: string, mode: string, children: seq<FieldSchema>, fields: seq<Column>)
    requires FromProtos(children) == Ok(fields) && (mode == "" || mode == "REPEATED")
    ensures FromProto(FieldSchema(name, "STRUCT", mode, "", children)) ==
            if name == "" then Err(InvalidArgument)
            else Ok(Column(name, Struct, if mode == "" then Nullable else Repeated, "", "", fields))
  {
    ModeNamesParseBack(Repeated);
    TypeNamesParseBack(Struct);
  }

  lemma {:induction false} FieldsTypeWireRoundTrip(cs: seq<Column>)
    requires ToFields(cs).Ok?
    ensures FillFields(ToFields(cs).value).Ok? <==> AllNamed(cs)
    ensures AllNamed(cs) ==> FromProtos(FillFields(ToFields(cs).value).value) == Ok(RememberedAll(cs))
    decreases cs, 0
  {
    if cs != [] {
      ColumnTypeWireRoundTrip(cs[0]);
      FieldsTypeWireRoundTrip(cs[1..]);
      var fields := ToFields(cs).value;
      assert fields[1..] == ToFields(cs[1..]).value;
      if AllNamed(cs) {
        var wire := FillFields(fields).value;
        assert wire[1..] == FillFields(fields[1..]).value;
      }
    }
  }

  // ----- Type, wire, column, type -----

  predicate RangeFree(t: Type)
    decreases t, 1
  {
    match t
    case ArrayOf(e) => RangeFree(e)
    case StructOf(fields) => AllRangeFree(fields)
    case RangeOf(_) => false
    case _ => true
  }

  predicate AllRangeFree(fields: seq<StructField>)
    decreases fields, 0
  {
    fields == [] || (RangeFree(fields[0].typ) && AllRangeFree(fields[1..]))
  }

  function TypeOfKind(k: Kind): (t: ColumnType)
    ensures KindOf(t) == Some(k) && ParseColumnType(BqScalarName(k)) == t
  {
    var t := match k
      case KBool => Boolean
      case KInt64 => Int64
      case KDouble => Float64
      case KString => String
      case KBytes => Bytes
      case KDate => Date
      case KTime => Time
      case KDatetime => Datetime
      case KTimestamp => Timestamp
      case KNumeric => Numeric
      case KBignumeric => Bignumeric
      case KJson => Json
      case KGeography => Geography;
    TypeNamesParseBack(t);
    t
  }

  /** Every reflected schema parses, and translates back to the same type exactly when no RANGE is in it. */
  lemma {:induction false} TypeWireColumnRoundTrip(t: Type, name: string)
    requires name != "" && FillRepeatable(t, name).Ok?
    ensures FromProto(FillRepeatable(t, name).value).Ok? && FromProto(FillRepeatable(t, name).value).value.name == name
    ensures var back := ToType(FromProto(FillRepeatable(t, name).value).value);
            if RangeFree(t) then back == Ok(t) else back == Err(InvalidArgument)
    decreases t, 2
  {
    ModeNamesParseBack(Repeated);
    var wire := FillRepeatable(t, name).value;
    FillRoundTrip(if t.ArrayOf? then t.element else t, name, wire.mode);
    FillShape(if t.ArrayOf? then t.element else t, name);
  }

  lemma {:induction false} FillShape(t: Type, name: string)
    requires Fill(t, name).Ok?
    ensures Fill(t, name).value.name == name && Fill(t, name).value.mode == ""
  {
  }

  /** What a wire schema for `t` reads back as, whatever mode is put on it. */
  predicate ReadsBack(w: FieldSchema, t: Type, mode: string) {
    var c := FromProto(w.(mode := mode));
    && c.Ok?
    && c.value.name == w.name
    && c.value.mode == ParseColumnMode(mode)
    && ToType(c.value) ==
       if RangeFree(t) then Ok(if c.value.mode.Repeated? then ArrayOf(t) else t) else Err(InvalidArgument)
  }

  lemma ScalarReadsBack(k: Kind, name: string, mode: string)
    requires name != ""
    ensures ReadsBack(FieldSchema(name, BqScalarName(k), "", "", []), Scalar(k), mode)
  {
    var _ := TypeOfKind(k);
  }

  lemma {:induction false} StructReadsBack(fields: seq<StructField>, children: seq<FieldSchema>, name: string,
                                           mode: string)
    requires name != "" && FieldsReadBack(children, fields)
    ensures ReadsBack(FieldSchema(name, "STRUCT", "", "", children), StructOf(fields), mode)
  {
    TypeNamesParseBack(Struct);
  }

  lemma {:induction false} RangeReadsBack(bound: Type, child: FieldSchema, name: string, mode: string)
    requires name != "" && FromProto(child).Ok?
    ensures ReadsBack(FieldSchema(name, "RANGE", "", "", [child]), RangeOf(bound), mode)
  {
    RangeIsUnknown();
    assert [child][1..] == [] && FromProtos([child]).Ok?;
  }

  lemma {:induction false} FillRoundTrip(t: Type, name: string, mode: string)
    requires name != "" && Fill(t, name).Ok?
    ensures ReadsBack(Fill(t, name).value, t, mode)
    decreases t, 1
  {
    match t
    case Scalar(k) => ScalarReadsBack(k, name, mode);
    case StructOf(fields) =>
      FillFieldsRoundTrip(fields);
      StructReadsBack(fields, FillFields(fields).value, name, mode);
    case RangeOf(bound) =>
      var child := Fill(bound, "range_element_type").value;
      FillRoundTrip(bound, "range_element_type", child.mode);
      assert child.(mode := child.mode) == child;
      RangeReadsBack(bound, child, name, mode);
  }

  predicate FieldsReadBack(ws: seq<FieldSchema>, fields: seq<StructField>) {
    var cs := FromProtos(ws);
    cs.Ok? && ToFields(cs.value) == if AllRangeFree(fields) then Ok(fields) else Err(InvalidArgument)
  }

  lemma {:induction false} FieldReadsBack(w: FieldSchema, f: StructField, ws: seq<FieldSchema>,
                                          fields: seq<StructField>)
    requires FieldsReadBack(ws, fields) && FromProto(w).Ok? && FromProto(w).value.name == f.name
    requires ToType(FromProto(w).value) == if RangeFree(f.typ) then Ok(f.typ) else Err(InvalidArgument)
    ensures FieldsReadBack([w] + ws, [f] + fields)
  {
    var wire, all := [w] + ws, [f] + fields;
    assert wire[1..] == ws && all[1..] == fields;
    var c, cs := FromProto(w).value, FromProtos(ws).value;
    assert ([c] + cs)[1..] == cs;
  }

  lemma {:induction false} FillFieldsRoundTrip(fields: seq<StructField>)
    requires FillFields(fields).Ok?
    ensures FieldsReadBack(FillFields(fields).value, fields)
    decreases fields, 0
  {
    if fields != [] {
      var f, rest := fields[0], fields[1..];
      assert f in fields;
      TypeWireColumnRoundTrip(f.typ, f.name);
      FillFieldsRoundTrip(rest);
      FieldReadsBack(FillRepeatable(f.typ, f.name).value, f, FillFields(rest).value, rest);
      assert fields == [f] + rest;
    }
  }

  // ----- What the wire can hold -----

  /** Scalars, structs of named fields, and ranges of these; an array only directly under a field. */
  predicate Representable(t: Type)
    decreases t, 1
  {
    match t
    case Scalar(_) => true
    case StructOf(fields) => AllRepresentable(fields)
    case RangeOf(bound) => Representable(bound)
    case _ => false
  }

  predicate AllRepresentable(fields: seq<StructField>)
    decreases fields, 0
  {
    fields == [] ||
    (&& fields[0].name != ""
     && Representable(if fields[0].typ.ArrayOf? then fields[0].typ.element else fields[0].typ)
     && AllRepresentable(fields[1..]))
  }

  /** A type has a wire form exactly when it is representable, under at most one array layer. */
  lemma {:induction false} WireFormIff(t: Type, name: string)
    ensures FillRepeatable(t, name).Ok? <==> Representable(if t.ArrayOf? then t.element else t)
    ensures FillRepeatable(t, name).Err? ==> FillRepeatable(t, name).code == InvalidArgument
    decreases t, 2
  {
    FillIff(if t.ArrayOf? then t.element else t, name);
  }

  lemma {:induction false} FillIff(t: Type, name: string)
    ensures Fill(t, name).Ok? <==> Representable(t)
    ensures Fill(t, name).Err? ==> Fill(t, name).code == InvalidArgument
    decreases t, 1
  {
    match t
    case StructOf(fields) => FillFieldsIff(fields);
    case RangeOf(bound) => FillIff(bound, "range_element_type");
    case _ =>
  }

  lemma {:induction false} FillFieldsIff(fields: seq<StructField>)
    ensures FillFields(fields).Ok? <==> AllRepresentable(fields)
    ensures FillFields(fields).Err? ==> FillFields(fields).code == InvalidArgument
    decreases fields, 0
  {
    if fields != [] {
      assert fields[0] in fields;
      WireFormIff(fields[0].typ, fields[0].name);
      FillFieldsIff(fields[1..]);
    }
  }

  /** The wire form determines the name and the type, a range's bound included. */
  lemma {:induction false} WireDeterminesType(t: Type, name: string, u: Type, name': string)
    requires FillRepeatable(t, name).Ok? && FillRepeatable(t, name) == FillRepeatable(u, name')
    ensures t == u && name == name'
    decreases t, 2
  {
    var x, y := if t.ArrayOf? then t.element else t, if u.ArrayOf? then u.element else u;
    FillShape(x, name);
    FillShape(y, name');
    assert "REPEATED" != "";
    FillDetermines(x, name, y, name');
  }

  lemma {:induction false} FillDetermines(t: Type, name: string, u: Type, name': string)
    requires Fill(t, name).Ok? && Fill(u, name').Ok? && Fill(t, name) == Fill(u, name')
    ensures t == u && name == name'
    decreases t, 1
  {
    WireNames(t, name);
    WireNames(u, name');
    match t
    case Scalar(k) => KindNamesDiffer(k, u.kind);
    case StructOf(fields) => FillFieldsDetermine(fields, u.fields);
    case RangeOf(bound) =>
      assert Fill(t, name).value.fields[0] == Fill(u, name').value.fields[0];
      FillDetermines(bound, "range_element_type", u.bound, "range_element_type");
  }

  /** Structs, ranges and scalars are told apart by their wire type names. */
  lemma WireNames(t: Type, name: string)
    requires Fill(t, name).Ok?
    ensures Fill(t, name).value.typ == "STRUCT" <==> t.StructOf?
    ensures Fill(t, name).value.typ == "RANGE" <==> t.RangeOf?
    ensures t.Scalar? || t.StructOf? || t.RangeOf?
  {
    assert |"STRUCT"| == 6 && |"RANGE"| == 5 && "STRING"[3] == 'I' && "STRUCT"[3] == 'U' && "BYTES"[0] == 'B';
  }

  lemma KindNamesDiffer(k: Kind, k': Kind)
    requires BqScalarName(k) == BqScalarName(k')
    ensures k == k'
  {
    assert TypeOfKind(k) == TypeOfKind(k');
  }

  lemma {:induction false} FillFieldsDetermine(fs: seq<StructField>, gs: seq<StructField>)
    requires FillFields(fs).Ok? && FillFields(fs) == FillFields(gs)
    ensures fs == gs
    decreases fs, 0
  {
    FilledCount(fs);
    FilledCount(gs);
    if fs != [] {
      assert fs[0] in fs;
      var ws := FillFields(fs).value;
      assert ws[0] == FillRepeatable(fs[0].typ, fs[0].name).value && ws[1..] == FillFields(fs[1..]).value;
      assert ws[0] == FillRepeatable(gs[0].typ, gs[0].name).value && ws[1..] == FillFields(gs[1..]).value;
      WireDeterminesType(fs[0].typ, fs[0].name, gs[0].typ, gs[0].name);
      FillFieldsDetermine(fs[1..], gs[1..]);
      assert fs == [fs[0]] + fs[1..] && gs == [gs[0]] + gs[1..];
    }
  }

  lemma {:induction false} FilledCount(fs: seq<StructField>)
    requires FillFields(fs).Ok?
    ensures |FillFields(fs).value| == |fs|
  {
    if fs != [] { FilledCount(fs[1..]); }
  }
}
