/**
 What the DuckDB text of a column says, read off the column alone: its scalar class, how many list
 layers it has and, in a struct, the names and texts of its fields (backend/schema/schema.cc).
 */
module DuckDbShape {
  import opened Basics
  import opened Schema
  import opened DuckDbType

  /** The scalar a type is stored as, where several share one. */
  function StoredAs(t: ColumnType, table: Table): ColumnType {
    if t.Geography? || t.Unknown? || (t.Bignumeric? && table.Storage?) then String else t
  }

  datatype Core = ScalarCore(typ: ColumnType) | RecordCore(fields: seq<ShapedField>)

  /** An innermost scalar or struct under some number of list layers. */
  datatype Shape = Shape(core: Core, depth: nat)

  datatype ShapedField = ShapedField(name: string, shape: Shape)

  /** REPEATED is one layer, and so is an ARRAY around its first field, or around a string if it has none. */
  function ShapeOf(c: Column, table: Table): Shape
    decreases c, 1
  {
    var repeated := if c.mode.Repeated? then 1 else 0;
    if c.typ.Struct? then Shape(RecordCore(ShapesOf(c.fields, table)), repeated)
    else if c.typ.Array? && c.fields == [] then Shape(ScalarCore(String), 1 + repeated)
    else if c.typ.Array? then
      var inner := ShapeOf(c.fields[0], table);
      Shape(inner.core, inner.depth + 1 + repeated)
    else Shape(ScalarCore(StoredAs(c.typ, table)), repeated)
  }

  function ShapesOf(cs: seq<Column>, table: Table): (r: seq<ShapedField>)
    ensures |r| == |cs|
    decreases cs, 0
  {
    if cs == [] then [] else [ShapedField(cs[0].name, ShapeOf(cs[0], table))] + ShapesOf(cs[1..], table)
  }

  // ----- The text -----

  /** A REPEATED column is the text of its NULLABLE form and one list marker. */
  lemma RepeatedAddsMarker(c: Column, table: Table)
    ensures Render(LowerColumn(c.(mode := Repeated), table)) ==
            Render(LowerColumn(c.(mode := Nullable), table)) + "[]"
    ensures Render(LowerColumn(c.(mode := Required), table)) == Render(LowerColumn(c.(mode := Nullable), table))
  {
  }

  /** An ARRAY column is the text of its element and one list marker. */
  lemma ArrayAddsMarker(c: Column, table: Table)
    requires c.typ.Array? && !c.mode.Repeated?
    ensures Render(LowerColumn(c, table)) ==
            (if c.fields == [] then "VARCHAR" else Render(LowerColumn(c.fields[0], table))) + "[]"
  {
  }

  function Joined(texts: seq<string>): string {
    if texts == [] then "" else if |texts| == 1 then texts[0] else texts[0] + ", " + Joined(texts[1..])
  }

  /** The text of a field: its own name quoted, and its own type. */
  function FieldText(c: Column, table: Table): string {
    QuoteStructFieldName(c.name) + " " + Render(LowerColumn(c, table))
  }

  /** A struct lists the text of each field once, in order. */
  lemma StructListsFields(c: Column, table: Table)
    requires c.typ.Struct? && !c.mode.Repeated?
    ensures Render(LowerColumn(c, table)) ==
            "STRUCT(" + Joined(seq(|c.fields|, i requires 0 <= i < |c.fields| => FieldText(c.fields[i], table))) + ")"
  {
    FieldsListed(c.fields, table, seq(|c.fields|, i requires 0 <= i < |c.fields| => FieldText(c.fields[i], table)));
  }

  lemma {:induction false} FieldsListed(cs: seq<Column>, table: Table, texts: seq<string>)
    requires |texts| == |cs| && forall i | 0 <= i < |cs| :: texts[i] == FieldText(cs[i], table)
    ensures RenderFields(LowerFields(cs, table)) == Joined(texts)
    decreases |cs|
  {
    if cs != [] {
      FieldsListed(cs[1..], table, texts[1..]);
      LoweredCount(cs[1..], table);
      assert LowerFields(cs, table)[1..] == LowerFields(cs[1..], table);
    }
  }

  lemma {:induction false} LoweredCount(cs: seq<Column>, table: Table)
    ensures |LowerFields(cs, table)| == |cs|
  {
    if cs != [] { LoweredCount(cs[1..], table); }
  }

  // ----- One text, one shape -----

  function Layered(t: DuckType, n: nat): DuckType {
    if n == 0 then t else ListOf(Layered(t, n - 1))
  }

  function TypeOf(s: Shape): DuckType
    decreases s, 2
  {
    Layered(CoreType(s.core), s.depth)
  }

  function CoreType(core: Core): DuckType
    decreases core, 1
  {
    match core
    case ScalarCore(t) => Leaf(ToDuckDBType(t))
    case RecordCore(fields) => StructOf(FieldTypes(fields))
  }

  function FieldTypes(fields: seq<ShapedField>): (r: seq<DuckField>)
    ensures |r| == |fields|
    decreases fields, 0
  {
    if fields == [] then [] else [DuckField(fields[0].name, TypeOf(fields[0].shape))] + FieldTypes(fields[1..])
  }

  lemma {:induction false} LayeredAgain(t: DuckType, n: nat, m: nat)
    ensures Layered(Layered(t, n), m) == Layered(t, n + m)
  {
    if m > 0 { LayeredAgain(t, n, m - 1); }
  }

  /** The column lowers to the type of its shape. */
  lemma {:induction false} LoweredIsShape(c: Column, table: Table)
    ensures LowerColumn(c, table) == TypeOf(ShapeOf(c, table))
    decreases c, 1
  {
    var repeated := if c.mode.Repeated? then 1 else 0;
    if c.typ.Struct? {
      FieldsAreShapes(c.fields, table);
      assert Layered(StructOf(LowerFields(c.fields, table)), repeated) == LowerColumn(c, table);
    } else if c.typ.Array? && c.fields != [] {
      LoweredIsShape(c.fields[0], table);
      var inner := ShapeOf(c.fields[0], table);
      LayeredAgain(CoreType(inner.core), inner.depth, 1);
      LayeredAgain(CoreType(inner.core), inner.depth + 1, repeated);
    } else {
      var leaf := CoreType(ShapeOf(c, table).core);
      assert Layered(leaf, 1) == ListOf(leaf) && Layered(leaf, 2) == ListOf(ListOf(leaf));
    }
  }

  lemma {:induction false} FieldsAreShapes(cs: seq<Column>, table: Table)
    ensures LowerFields(cs, table) == FieldTypes(ShapesOf(cs, table))
    decreases cs, 0
  {
    if cs != [] {
      LoweredIsShape(cs[0], table);
      FieldsAreShapes(cs[1..], table);
      assert ShapesOf(cs, table)[1..] == ShapesOf(cs[1..], table);
    }
  }

  /** Shapes of columns use one scalar for each text. */
  predicate Proper(s: Shape)
    decreases s, 2
  {
    match s.core
    case ScalarCore(t) => t !in {Geography, Unknown, Array, Struct}
    case RecordCore(fields) => AllProper(fields)
  }

  predicate AllProper(fields: seq<ShapedField>)
    decreases fields, 0
  {
    fields == [] || (Proper(fields[0].shape) && AllProper(fields[1..]))
  }

  lemma {:induction false} ShapeIsProper(c: Column, table: Table)
    ensures Proper(ShapeOf(c, table))
    decreases c, 1
  {
    if c.typ.Struct? {
      ShapesAreProper(c.fields, table);
    } else if c.typ.Array? && c.fields != [] {
      ShapeIsProper(c.fields[0], table);
    }
  }

  lemma {:induction false} ShapesAreProper(cs: seq<Column>, table: Table)
    ensures AllProper(ShapesOf(cs, table))
    decreases cs, 0
  {
    if cs != [] {
      ShapeIsProper(cs[0], table);
      ShapesAreProper(cs[1..], table);
      assert ShapesOf(cs, table)[1..] == ShapesOf(cs[1..], table);
    }
  }

  lemma {:induction false} LayersUnique(t: DuckType, n: nat, u: DuckType, m: nat)
    requires !t.ListOf? && !u.ListOf? && Layered(t, n) == Layered(u, m)
    ensures t == u && n == m
  {
    if n > 0 && m > 0 { LayersUnique(t, n - 1, u, m - 1); }
  }

  lemma ScalarTextsDiffer(t: ColumnType, u: ColumnType)
    requires t !in {Geography, Unknown, Array, Struct} && u !in {Geography, Unknown, Array, Struct}
    requires ToDuckDBType(t) == ToDuckDBType(u)
    ensures t == u
  {
    assert "DECIMAL(38, 9)"[12] == '9' && "DECIMAL(38, 38)"[12] == '3';
    assert "DATE"[0] == 'D' && "TIME"[0] == 'T' && "JSON"[0] == 'J' && "BLOB"[0] == 'B' && "BLOB"[1] == 'L';
    assert "BIGINT"[0] == 'B' && "DOUBLE"[0] == 'D' && "BOOLEAN"[0] == 'B' && "VARCHAR"[0] == 'V';
  }

  lemma {:induction false} TypeOfUnique(s: Shape, s': Shape)
    requires Proper(s) && Proper(s') && TypeOf(s) == TypeOf(s')
    ensures s == s'
    decreases s, 2
  {
    LayersUnique(CoreType(s.core), s.depth, CoreType(s'.core), s'.depth);
    if s.core.ScalarCore? {
      ScalarTextsDiffer(s.core.typ, s'.core.typ);
    } else {
      FieldTypesUnique(s.core.fields, s'.core.fields);
    }
  }

  lemma {:induction false} FieldTypesUnique(fs: seq<ShapedField>, gs: seq<ShapedField>)
    requires AllProper(fs) && AllProper(gs) && FieldTypes(fs) == FieldTypes(gs)
    ensures fs == gs
    decreases fs, 0
  {
    if fs != [] {
      assert FieldTypes(fs)[0] == FieldTypes(gs)[0] && FieldTypes(fs)[1..] == FieldTypes(gs)[1..];
      TypeOfUnique(fs[0].shape, gs[0].shape);
      FieldTypesUnique(fs[1..], gs[1..]);
      assert fs == [fs[0]] + fs[1..] && gs == [gs[0]] + gs[1..];
    }
  }

  /** Two columns have one text, under either scalar table, exactly when they have one shape. */
  lemma SameTextIff(c: Column, t: Table, d: Column, u: Table)
    ensures Render(LowerColumn(c, t)) == Render(LowerColumn(d, u)) <==> ShapeOf(c, t) == ShapeOf(d, u)
  {
    RenderInjective(c, t, d, u);
    LoweredIsShape(c, t);
    LoweredIsShape(d, u);
    ShapeIsProper(c, t);
    ShapeIsProper(d, u);
    if TypeOf(ShapeOf(c, t)) == TypeOf(ShapeOf(d, u)) { TypeOfUnique(ShapeOf(c, t), ShapeOf(d, u)); }
  }

  /** The list markers at the end of the text are the list layers of the column. */
  lemma MarkersAreLayers(c: Column, table: Table)
    ensures var s := ShapeOf(c, table);
            Render(LowerColumn(c, table)) == Render(CoreType(s.core)) + Brackets(s.depth)
  {
    var s := ShapeOf(c, table);
    LoweredIsShape(c, table);
    LayersRender(CoreType(s.core), s.depth);
  }

  lemma {:induction false} LayersRender(t: DuckType, n: nat)
    ensures Render(Layered(t, n)) == Render(t) + Brackets(n)
  {
    if n == 0 {
      assert Render(t) + "" == Render(t);
    } else {
      LayersRender(t, n - 1);
      BracketsSnoc(n - 1);
      assert (Render(t) + Brackets(n - 1)) + "[]" == Render(t) + (Brackets(n - 1) + "[]");
    }
  }

  // ----- Type names -----

  /** The names a type goes by; TIMESTAMP alone depends on what follows it. */
  function DuckNames(t: ColumnType): set<string> {
    match t
    case Int64 => {"TINYINT", "SMALLINT", "INTEGER", "BIGINT", "INT1", "INT2", "INT4", "INT8", "INT", "LONG", "INT64"}
    case Float64 => {"FLOAT", "REAL", "DOUBLE", "FLOAT4", "FLOAT8"}
    case Boolean => {"BOOL", "BOOLEAN"}
    case String => {"CHAR", "TEXT", "STRING", "VARCHAR"}
    case Bytes => {"BYTES", "BYTEA", "BLOB", "BINARY", "VARBINARY"}
    case Date => {"DATE"}
    case Time => {"TIME"}
    case Datetime => {}
    case Timestamp => {"TIMESTAMPTZ", "TIMESTAMP_TZ"}
    case Numeric => {"NUMERIC", "DECIMAL"}
    case Bignumeric => {"BIGNUMERIC", "BIGDECIMAL", "HUGEINT"}
    case Json => {"JSON"}
    case Geography => {"GEOGRAPHY", "GEOMETRY"}
    case Struct => {"STRUCT", "ROW", "RECORD"}
    case Array => {"LIST", "ARRAY"}
    case Unknown => {}
  }

  /** A name, in any case, reads as the type that goes by it, whatever parameters follow. */
  lemma NameReads(name: string, tail: string, t: ColumnType)
    requires Upper(name) in DuckNames(t)
    requires tail == "" || (tail[0] in {'(', '[', ' ', '\t'} && tail[|tail| - 1] !in {'[', ']'})
    ensures FromDuckDBType(name + tail) == t
  {
    HeadNames(Upper(name), t);
    PlainName(name);
    var text := name + tail;
    assert text != "" && text[|text| - 1] == if tail == "" then name[|name| - 1] else tail[|tail| - 1];
    HeadIs(name, tail);
    StripTrailingStops(text, ']');
    StripTrailingStops(text, '[');
  }

  predicate PlainWord(s: string) {
    forall i | 0 <= i < |s| :: 'A' <= s[i] <= 'Z' || s[i] == '_' || IsDigit(s[i])
  }

  lemma PlainName(name: string)
    requires PlainWord(Upper(name))
    ensures forall i | 0 <= i < |name| :: !EndsHead(name[i]) && name[i] != ']'
  {
    assert forall i | 0 <= i < |name| :: Upper(name)[i] == UpperChar(name[i]);
  }

  lemma HeadNames(head: string, t: ColumnType)
    requires head in DuckNames(t)
    ensures AliasType(head) == t && head != "TIMESTAMP" && head != "" && PlainWord(head)
  {
    if t in {Int64, Float64} {
      NumberNames(head, t);
    } else if t in {Boolean, Date, Time} {
      ScalarNames(head, t);
    } else if t.String? {
      StringNames(head);
    } else if t.Bytes? {
      BytesNames(head);
    } else if t in {Timestamp, Numeric} {
      WideNames(head, t);
    } else if t.Bignumeric? {
      WidestNames(head);
    } else if t in {Json, Geography} {
      JsonAndGeography(head, t);
    } else {
      CompoundNames(head, t);
    }
  }

  lemma NumberNames(head: string, t: ColumnType)
    requires t in {Int64, Float64} && head in DuckNames(t)
    ensures AliasType(head) == t && head != "TIMESTAMP" && head != "" && PlainWord(head)
  {
  }

  lemma ScalarNames(head: string, t: ColumnType)
    requires t in {Boolean, Date, Time} && head in DuckNames(t)
    ensures AliasType(head) == t && head != "TIMESTAMP" && head != "" && PlainWord(head)
  {
  }

  lemma StringNames(head: string)
    requires head in DuckNames(String)
    ensures AliasType(head) == String && head != "TIMESTAMP" && head != "" && PlainWord(head)
  {
  }

  lemma BytesNames(head: string)
    requires head in DuckNames(Bytes)
    ensures AliasType(head) == Bytes && head != "TIMESTAMP" && head != "" && PlainWord(head)
  {
  }

  lemma WideNames(head: string, t: ColumnType)
    requires t in {Timestamp, Numeric} && head in DuckNames(t)
    ensures AliasType(head) == t && head != "TIMESTAMP" && head != "" && PlainWord(head)
  {
  }

  lemma WidestNames(head: string)
    requires head in DuckNames(Bignumeric)
    ensures AliasType(head) == Bignumeric && head != "TIMESTAMP" && head != "" && PlainWord(head)
  {
  }

  lemma JsonAndGeography(head: string, t: ColumnType)
    requires t in {Json, Geography} && head in DuckNames(t)
    ensures AliasType(head) == t && head != "TIMESTAMP" && head != "" && PlainWord(head)
  {
  }

  lemma CompoundNames(head: string, t: ColumnType)
    requires t in {Struct, Array} && head in DuckNames(t)
    ensures AliasType(head) == t && head != "TIMESTAMP" && head != "" && PlainWord(head)
  {
  }
}
