/**
 DuckDB type expressions: rendering a column, and reading the head type back
 (backend/schema/schema.cc).
 */
module DuckDbType {
  import opened Basics
  import opened Schema

  /** The two scalar tables the renderer is called with. */
  datatype Table = Query | Storage

  function ToDuckDBType(t: ColumnType): string {
    match t
    case Int64 => "BIGINT"
    case Float64 => "DOUBLE"
    case Boolean => "BOOLEAN"
    case String => "VARCHAR"
    case Bytes => "BLOB"
    case Date => "DATE"
    case Time => "TIME"
    case Datetime => "TIMESTAMP"
    case Timestamp => "TIMESTAMP WITH TIME ZONE"
    case Numeric => "DECIMAL(38, 9)"
    case Bignumeric => "DECIMAL(38, 38)"
    case Json => "JSON"
    case Geography => "VARCHAR"
    case Array => "LIST"
    case Struct => "STRUCT"
    case Unknown => "VARCHAR"
  }

  function ScalarText(t: ColumnType, table: Table): string {
    if table.Storage? && t.Bignumeric? then "VARCHAR" else ToDuckDBType(t)
  }

  /** What a type expression denotes. */
  datatype DuckType = Leaf(text: string) | ListOf(element: DuckType) | StructOf(fields: seq<DuckField>)

  datatype DuckField = DuckField(name: string, typ: DuckType)

  function Wrap(t: DuckType, mode: ColumnMode): DuckType {
    if mode.Repeated? then ListOf(t) else t
  }

  /** The DuckDB type a column lowers to. */
  function LowerColumn(c: Column, table: Table): DuckType
    decreases c, 1
  {
    if c.typ.Struct? then Wrap(StructOf(LowerFields(c.fields, table)), c.mode)
    else if c.typ.Array? then
      Wrap(ListOf(if c.fields == [] then Leaf("VARCHAR") else LowerColumn(c.fields[0], table)), c.mode)
    else Wrap(Leaf(ScalarText(c.typ, table)), c.mode)
  }

  function LowerFields(cs: seq<Column>, table: Table): seq<DuckField>
    decreases cs, 0
  {
    if cs == [] then [] else [DuckField(cs[0].name, LowerColumn(cs[0], table))] + LowerFields(cs[1..], table)
  }

  // ----- Rendering -----

  /** Doubles every double quote. */
  function Escape(name: string): string {
    if name == [] then []
    else (if name[0] == '\"' then "\"\"" else [name[0]]) + Escape(name[1..])
  }

  function QuoteStructFieldName(name: string): string {
    "\"" + Escape(name) + "\""
  }

  function Render(t: DuckType): string
    decreases t, 1
  {
    match t
    case Leaf(text) => text
    case ListOf(e) => Render(e) + "[]"
    case StructOf(fields) => "STRUCT(" + RenderFields(fields) + ")"
  }

  function RenderFields(fields: seq<DuckField>): string
    decreases fields, 0
  {
    if fields == [] then ""
    else if |fields| == 1 then RenderField(fields[0])
    else RenderField(fields[0]) + ", " + RenderFields(fields[1..])
  }

  function RenderField(f: DuckField): string
    decreases f, 2
  {
    QuoteStructFieldName(f.name) + " " + Render(f.typ)
  }

  /** The renderer of the source. */
  method ColumnSchemaToDuckDBTypeWithFn(c: Column, table: Table) returns (inner: string)
    ensures inner == Render(LowerColumn(c, table))
    decreases c, 1
  {
    if c.typ.Struct? {
      inner := AppendFields("STRUCT(", c.fields, table);
      inner := inner + ")";
    } else if c.typ.Array? {
      if c.fields == [] {
        inner := "VARCHAR";
      } else {
        inner := ColumnSchemaToDuckDBTypeWithFn(c.fields[0], table);
      }
      inner := inner + "[]";
    } else {
      inner := ScalarText(c.typ, table);
    }
    if c.mode.Repeated? { inner := inner + "[]"; }
  }

  /** The struct loop: appends each field to `inner`, with a comma before all but the first. */
  method AppendFields(start: string, cs: seq<Column>, table: Table) returns (inner: string)
    ensures inner == start + RenderFields(LowerFields(cs, table))
    decreases cs, 0
  {
    inner := start;
    ghost var whole := start + RenderFields(LowerFields(cs, table));
    var i := 0;
    assert cs[0..] == cs;
    while i < |cs|
      invariant 0 <= i <= |cs|
      invariant inner + Tail(i, LowerFields(cs[i..], table)) == whole
    {
      FieldsFrom(inner, cs, i, table);
      if i > 0 { inner := inner + ", "; }
      var child := ColumnSchemaToDuckDBTypeWithFn(cs[i], table);
      inner := inner + (QuoteStructFieldName(cs[i].name) + " " + child);
      i := i + 1;
    }
    assert cs[i..] == [] && inner + "" == inner;
  }

  lemma FieldsFrom(before: string, cs: seq<Column>, i: nat, table: Table)
    requires i < |cs|
    ensures before + Tail(i, LowerFields(cs[i..], table)) ==
            (if i > 0 then before + ", " else before)
            + (QuoteStructFieldName(cs[i].name) + " " + Render(LowerColumn(cs[i], table)))
            + Tail(i + 1, LowerFields(cs[i + 1..], table))
  {
    assert cs[i..][1..] == cs[i + 1..];
    TailStep(before, i, DuckField(cs[i].name, LowerColumn(cs[i], table)), LowerFields(cs[i + 1..], table));
  }

  lemma TailStep(before: string, i: nat, f: DuckField, rest: seq<DuckField>)
    ensures before + Tail(i, [f] + rest) ==
            (if i > 0 then before + ", " else before) + RenderField(f) + Tail(i + 1, rest)
  {
    FieldsCons(f, rest);
    Spliced(before, if i > 0 then ", " else "", RenderField(f), Tail(i + 1, rest));
    assert before + "" == before;
  }

  lemma FieldsCons(f: DuckField, rest: seq<DuckField>)
    ensures RenderFields([f] + rest) == RenderField(f) + Tail(1, rest)
  {
    assert ([f] + rest)[1..] == rest;
    if rest == [] {
      assert RenderField(f) + "" == RenderField(f);
    } else {
      Spliced("", RenderField(f), ", ", RenderFields(rest));
    }
  }

  lemma Spliced(a: string, b: string, c: string, d: string)
    ensures a + (b + (c + d)) == (a + b) + c + d && "" + (b + (c + d)) == b + (c + d) && "" + b == b
  {
  }

  /** What is still to be written after the first `done` fields. */
  function Tail(done: nat, rest: seq<DuckField>): string {
    if rest == [] then "" else (if done > 0 then ", " else "") + RenderFields(rest)
  }

  // ----- Unique readability -----

  /** The texts a scalar can have. */
  predicate IsLeafText(s: string) {
    s in {"BIGINT", "DOUBLE", "BOOLEAN", "VARCHAR", "BLOB", "DATE", "TIME", "TIMESTAMP",
          "TIMESTAMP WITH TIME ZONE", "DECIMAL(38, 9)", "DECIMAL(38, 38)", "JSON"}
  }

  predicate WellFormed(t: DuckType)
    decreases t, 1
  {
    match t
    case Leaf(text) => IsLeafText(text)
    case ListOf(e) => WellFormed(e)
    case StructOf(fields) => AllWellFormed(fields)
  }

  predicate AllWellFormed(fields: seq<DuckField>)
    decreases fields, 0
  {
    fields == [] || (WellFormed(fields[0].typ) && AllWellFormed(fields[1..]))
  }

  lemma {:induction false} LoweredWellFormed(c: Column, table: Table)
    ensures WellFormed(LowerColumn(c, table))
    decreases c, 1
  {
    if c.typ.Struct? {
      LoweredFieldsWellFormed(c.fields, table);
    } else if c.typ.Array? && c.fields != [] {
      LoweredWellFormed(c.fields[0], table);
    }
  }

  lemma {:induction false} LoweredFieldsWellFormed(cs: seq<Column>, table: Table)
    ensures AllWellFormed(LowerFields(cs, table))
    decreases cs, 0
  {
    if cs != [] {
      LoweredWellFormed(cs[0], table);
      LoweredFieldsWellFormed(cs[1..], table);
      assert LowerFields(cs, table)[1..] == LowerFields(cs[1..], table);
    }
  }

  /** Text that can follow a type: nothing, another field, the end of a struct, or a list marker. */
  predicate Follows(r: string) {
    r == "" || r[0] in {',', ')', '['}
  }

  function Brackets(n: nat): string {
    if n == 0 then "" else "[]" + Brackets(n - 1)
  }

  function Base(t: DuckType): DuckType {
    if t.ListOf? then Base(t.element) else t
  }

  function Layers(t: DuckType): nat {
    if t.ListOf? then Layers(t.element) + 1 else 0
  }

  lemma {:induction false} BracketsSnoc(n: nat)
    ensures Brackets(n) + "[]" == Brackets(n + 1)
  {
    if n > 0 { BracketsSnoc(n - 1); }
  }

  /** A type is its innermost non-list type followed by one marker per list layer. */
  lemma {:induction false} RenderSplit(t: DuckType)
    ensures Render(t) == Render(Base(t)) + Brackets(Layers(t))
    ensures WellFormed(t) ==> WellFormed(Base(t))
    ensures !Base(t).ListOf?
  {
    if t.ListOf? {
      RenderSplit(t.element);
      BracketsSnoc(Layers(t.element));
    }
  }

  lemma {:induction false} BaseLayersUnique(a: DuckType, b: DuckType)
    requires Base(a) == Base(b) && Layers(a) == Layers(b)
    ensures a == b
  {
    if a.ListOf? { BaseLayersUnique(a.element, b.element); }
  }

  lemma {:induction false} BracketsUnique(m: nat, r: string, n: nat, r': string)
    requires Brackets(m) + r == Brackets(n) + r'
    requires (r != "" ==> r[0] != '[') && (r' != "" ==> r'[0] != '[')
    ensures m == n && r == r'
  {
    assert m > 0 ==> (Brackets(m) + r)[0] == '[';
    assert n > 0 ==> (Brackets(n) + r')[0] == '[';
    assert "" + r == r && "" + r' == r';
    if m > 0 && n > 0 {
      assert (Brackets(m) + r)[2..] == Brackets(m - 1) + r;
      assert (Brackets(n) + r')[2..] == Brackets(n - 1) + r';
      BracketsUnique(m - 1, r, n - 1, r');
    }
  }

  /** Only the DECIMAL texts hold a character that can follow a type. */
  lemma LeafStops(a: string, i: nat)
    requires IsLeafText(a) && i < |a| && a[i] in {',', ')', '['}
    ensures a == "DECIMAL(38, 9)" || a == "DECIMAL(38, 38)"
    ensures i == 10 || i == |a| - 1
  {
  }

  /** No scalar text continues another one with such a character. */
  lemma LeafPrefixFree(a: string, b: string)
    requires IsLeafText(a) && IsLeafText(b)
    ensures |a| < |b| && b[|a|] in {',', ')', '['} ==> b[..|a|] != a
  {
    if |a| < |b| && b[|a|] in {',', ')', '['} {
      LeafStops(b, |a|);
      assert |a| == 14 ==> a[12] != b[12];
    }
  }

  lemma LeafUnique(a: string, r: string, b: string, r': string)
    requires IsLeafText(a) && IsLeafText(b) && Follows(r) && Follows(r')
    requires a + r == b + r'
    ensures a == b && r == r'
  {
    if |a| < |b| {
      Overlap(a, r, b, r');
      LeafPrefixFree(a, b);
    } else if |b| < |a| {
      Overlap(b, r', a, r);
      LeafPrefixFree(b, a);
    } else {
      assert (a + r)[..|a|] == a && (b + r')[..|b|] == b;
      assert (a + r)[|a|..] == r && (b + r')[|b|..] == r';
    }
  }

  lemma Overlap(a: string, r: string, b: string, r': string)
    requires a + r == b + r' && |a| < |b|
    ensures r != "" && r[0] == b[|a|] && b[..|a|] == a
  {
    assert (a + r)[..|a|] == a && (a + r)[|a|] == r[0];
  }

  lemma {:induction false} QuotedUnique(a: string, r: string, b: string, r': string)
    requires Escape(a) + "\"" + r == Escape(b) + "\"" + r'
    requires r != "" && r[0] != '\"' && r' != "" && r'[0] != '\"'
    ensures a == b && r == r'
  {
    var text, text' := Escape(a) + "\"" + r, Escape(b) + "\"" + r';
    assert a == [] ==> text[0] == '\"' && text[1] == r[0] && text[1..] == r;
    assert b == [] ==> text'[0] == '\"' && text'[1] == r'[0] && text'[1..] == r';
    assert a != [] ==> text[0] == a[0] && (a[0] == '\"' ==> text[1] == '\"');
    assert b != [] ==> text'[0] == b[0] && (b[0] == '\"' ==> text'[1] == '\"');
    if a != [] && b != [] {
      var k := if a[0] == '\"' then 2 else 1;
      var k' := if b[0] == '\"' then 2 else 1;
      assert text[0] == a[0] && text'[0] == b[0];
      assert text[k..] == Escape(a[1..]) + "\"" + r;
      assert text'[k'..] == Escape(b[1..]) + "\"" + r';
      QuotedUnique(a[1..], r, b[1..], r');
      assert a == [a[0]] + a[1..] && b == [b[0]] + b[1..];
    }
  }

  predicate StopsAt(r: string) {
    r == "" || r[0] in {',', ')'}
  }

  /** The main induction: a type text and what follows it can be told apart in only one way. */
  lemma {:induction false} ReadsUniquely(a: DuckType, r: string, b: DuckType, r': string)
    requires WellFormed(a) && WellFormed(b) && StopsAt(r) && StopsAt(r')
    requires Render(a) + r == Render(b) + r'
    ensures a == b && r == r'
    decreases a, 3
  {
    SplitBeforeLayers(a, r);
    SplitBeforeLayers(b, r');
    BaseSmaller(a);
    BaseReadsUniquely(a, Base(a), Brackets(Layers(a)) + r, Base(b), Brackets(Layers(b)) + r');
    BracketsUnique(Layers(a), r, Layers(b), r');
    BaseLayersUnique(a, b);
  }

  lemma SplitBeforeLayers(t: DuckType, r: string)
    requires WellFormed(t) && StopsAt(r)
    ensures Render(t) + r == Render(Base(t)) + (Brackets(Layers(t)) + r)
    ensures WellFormed(Base(t)) && !Base(t).ListOf? && Follows(Brackets(Layers(t)) + r)
  {
    RenderSplit(t);
    assert Layers(t) > 0 ==> (Brackets(Layers(t)) + r)[0] == '[';
  }

  lemma {:induction false} BaseSmaller(a: DuckType)
    ensures Base(a) == a || Base(a) < a
  {
    if a.ListOf? { BaseSmaller(a.element); }
  }

  lemma {:induction false} BaseReadsUniquely(whole: DuckType, a: DuckType, s: string, b: DuckType, s': string)
    requires a == whole || a < whole
    requires WellFormed(a) && WellFormed(b) && !a.ListOf? && !b.ListOf? && Follows(s) && Follows(s')
    requires Render(a) + s == Render(b) + s'
    ensures a == b && s == s'
    decreases whole, 2
  {
    assert a.StructOf? ==> (Render(a) + s)[0] == 'S';
    assert b.StructOf? ==> (Render(b) + s')[0] == 'S';
    assert a.Leaf? ==> (Render(a) + s)[0] != 'S';
    assert b.Leaf? ==> (Render(b) + s')[0] != 'S';
    if a.Leaf? {
      LeafUnique(a.text, s, b.text, s');
    } else {
      StructBody(a, s);
      StructBody(b, s');
      FieldsReadUniquely(a.fields, ")" + s, b.fields, ")" + s');
      assert (")" + s)[1..] == s && (")" + s')[1..] == s';
    }
  }

  lemma StructBody(a: DuckType, s: string)
    requires a.StructOf?
    ensures |Render(a) + s| >= 7 && (Render(a) + s)[7..] == RenderFields(a.fields) + (")" + s)
  {
    assert Render(a) + s == "STRUCT(" + (RenderFields(a.fields) + (")" + s));
  }

  lemma FieldsShape(fields: seq<DuckField>, r: string)
    requires fields != []
    ensures |RenderFields(fields) + r| > 0 && (RenderFields(fields) + r)[0] == '\"'
    ensures (RenderFields(fields) + r)[1..] ==
            Escape(fields[0].name) + "\"" + (" " + (Render(fields[0].typ) + FieldsRest(fields, r)))
  {
    var rest := FieldsRest(fields, r);
    assert RenderFields(fields) + r == RenderField(fields[0]) + rest by {
      if |fields| > 1 { Regroup3(RenderField(fields[0]), ", ", RenderFields(fields[1..]), r); }
    }
    Regroup(" ", "\"", Escape(fields[0].name), Render(fields[0].typ), rest);
  }

  lemma Regroup3(a: string, b: string, c: string, d: string)
    ensures a + b + c + d == a + (b + (c + d))
  {
  }

  lemma Regroup(space: string, quote: string, name: string, typ: string, rest: string)
    ensures ((quote + name + quote) + space + typ) + rest == quote + (name + quote + (space + (typ + rest)))
  {
    assert (quote + name + quote) + space == quote + (name + quote + space);
    assert (quote + (name + quote + space)) + typ == quote + (name + quote + (space + typ));
    assert (quote + (name + quote + (space + typ))) + rest == quote + (name + quote + ((space + typ) + rest));
    assert (space + typ) + rest == space + (typ + rest);
  }

  /** Everything after the first field's type. */
  function FieldsRest(fields: seq<DuckField>, r: string): string
    requires fields != []
  {
    if |fields| == 1 then r else ", " + (RenderFields(fields[1..]) + r)
  }

  lemma {:induction false} FieldsReadUniquely(fs: seq<DuckField>, r: string, gs: seq<DuckField>, r': string)
    requires AllWellFormed(fs) && AllWellFormed(gs)
    requires r != "" && r[0] == ')' && r' != "" && r'[0] == ')'
    requires RenderFields(fs) + r == RenderFields(gs) + r'
    ensures fs == gs && r == r'
    decreases fs, 1
  {
    FieldsOrNone(fs, r, gs, r');
    if fs != [] && gs != [] {
      FieldHead(fs, r, gs, r');
      assert fs[0] in fs;
      ReadsUniquely(fs[0].typ, FieldsRest(fs, r), gs[0].typ, FieldsRest(gs, r'));
      RestSplits(fs, r, gs, r');
      assert |fs| == 1 ==> fs[1..] == gs[1..];
      if |fs| > 1 { FieldsReadUniquely(fs[1..], r, gs[1..], r'); }
      SameFields(fs, gs);
    }
  }

  lemma SameFields(fs: seq<DuckField>, gs: seq<DuckField>)
    requires fs != [] && gs != [] && fs[0].name == gs[0].name && fs[0].typ == gs[0].typ && fs[1..] == gs[1..]
    ensures fs == gs
  {
    assert fs == [fs[0]] + fs[1..] && gs == [gs[0]] + gs[1..];
  }

  /** Fields start with a quote, so none are told from some. */
  lemma FieldsOrNone(fs: seq<DuckField>, r: string, gs: seq<DuckField>, r': string)
    requires r != "" && r[0] == ')' && r' != "" && r'[0] == ')' && RenderFields(fs) + r == RenderFields(gs) + r'
    ensures fs == [] <==> gs == []
    ensures fs == [] ==> r == r'
  {
    assert "" + r == r && "" + r' == r';
    if fs != [] { FieldsShape(fs, r); }
    if gs != [] { FieldsShape(gs, r'); }
  }

  /** The name of the first field, and what follows it. */
  lemma FieldHead(fs: seq<DuckField>, r: string, gs: seq<DuckField>, r': string)
    requires fs != [] && gs != [] && RenderFields(fs) + r == RenderFields(gs) + r'
    ensures fs[0].name == gs[0].name
    ensures Render(fs[0].typ) + FieldsRest(fs, r) == Render(gs[0].typ) + FieldsRest(gs, r')
  {
    FieldsShape(fs, r);
    FieldsShape(gs, r');
    var after, after' := Render(fs[0].typ) + FieldsRest(fs, r), Render(gs[0].typ) + FieldsRest(gs, r');
    QuotedUnique(fs[0].name, " " + after, gs[0].name, " " + after');
    assert (" " + after)[1..] == after && (" " + after')[1..] == after';
  }

  /** What follows the first field: a comma and more fields, or the end. */
  lemma RestSplits(fs: seq<DuckField>, r: string, gs: seq<DuckField>, r': string)
    requires fs != [] && gs != [] && r != "" && r[0] == ')' && r' != "" && r'[0] == ')'
    requires FieldsRest(fs, r) == FieldsRest(gs, r')
    ensures |fs| > 1 <==> |gs| > 1
    ensures |fs| == 1 ==> r == r'
    ensures |fs| > 1 ==> RenderFields(fs[1..]) + r == RenderFields(gs[1..]) + r'
  {
    assert |fs| > 1 ==> FieldsRest(fs, r)[2..] == RenderFields(fs[1..]) + r;
    assert |gs| > 1 ==> FieldsRest(gs, r')[2..] == RenderFields(gs[1..]) + r';
  }

  /** Two columns render to the same text exactly when they lower to the same DuckDB type. */
  lemma RenderInjective(c: Column, t: Table, d: Column, u: Table)
    ensures Render(LowerColumn(c, t)) == Render(LowerColumn(d, u)) <==> LowerColumn(c, t) == LowerColumn(d, u)
  {
    LoweredWellFormed(c, t);
    LoweredWellFormed(d, u);
    var a, b := LowerColumn(c, t), LowerColumn(d, u);
    if Render(a) == Render(b) {
      assert Render(a) + "" == Render(b) + "";
      ReadsUniquely(a, "", b, "");
    }
  }

  // ----- Reading the head type back -----

  function StripTrailing(s: string, c: char): string {
    if s != "" && s[|s| - 1] == c then StripTrailing(s[..|s| - 1], c) else s
  }

  function StripArraySuffix(s: string): string {
    StripTrailing(StripTrailing(s, ']'), '[')
  }

  predicate EndsHead(c: char) {
    c in {'(', '[', ' ', '\t'}
  }

  function TypeHead(s: string): string {
    if s == "" || EndsHead(s[0]) then "" else [s[0]] + TypeHead(s[1..])
  }

  /** The alias table, keyed by upper-case head; TIMESTAMP is resolved separately. */
  function AliasType(head: string): ColumnType {
    if head in {"BIGINT", "INT8", "LONG", "INT64", "INTEGER", "INT", "INT4", "SMALLINT", "INT2", "TINYINT", "INT1"} then
      Int64
    else if head in {"DOUBLE", "FLOAT8", "REAL", "FLOAT4", "FLOAT"} then Float64
    else if head in {"BOOLEAN", "BOOL"} then Boolean
    else if head in {"VARCHAR", "TEXT", "STRING", "CHAR"} then String
    else if head in {"BLOB", "BYTEA", "BINARY", "VARBINARY", "BYTES"} then Bytes
    else if head == "DATE" then Date
    else if head == "TIME" then Time
    else if head in {"TIMESTAMPTZ", "TIMESTAMP_TZ"} then Timestamp
    else if head in {"DECIMAL", "NUMERIC"} then Numeric
    else if head in {"HUGEINT", "BIGNUMERIC", "BIGDECIMAL"} then Bignumeric
    else if head == "JSON" then Json
    else if head in {"GEOMETRY", "GEOGRAPHY"} then Geography
    else if head in {"STRUCT", "ROW", "RECORD"} then Struct
    else if head in {"LIST", "ARRAY"} then Array
    else Unknown
  }

  const ZONE := "WITH TIME ZONE"

  function FromDuckDBType(text: string): ColumnType {
    var name := StripArraySuffix(text);
    var head := TypeHead(name);
    if Upper(head) == "TIMESTAMP" then (if Contains(Upper(name), ZONE) then Timestamp else Datetime)
    else AliasType(Upper(head))
  }

  method StripSuffix(text: string) returns (name: string)
    ensures name == StripArraySuffix(text)
  {
    name := text;
    while name != "" && name[|name| - 1] == ']'
      invariant StripTrailing(name, ']') == StripTrailing(text, ']')
      decreases |name|
    {
      name := name[..|name| - 1];
    }
    while name != "" && name[|name| - 1] == '['
      invariant StripTrailing(name, '[') == StripArraySuffix(text)
      decreases |name|
    {
      name := name[..|name| - 1];
    }
  }

  method FindTypeHead(name: string) returns (head: string)
    ensures head == TypeHead(name)
  {
    var i := 0;
    assert name[..0] + TypeHead(name[0..]) == TypeHead(name) by { assert name[0..] == name; }
    while i < |name| && !EndsHead(name[i])
      invariant 0 <= i <= |name|
      invariant name[..i] + TypeHead(name[i..]) == TypeHead(name)
    {
      HeadStep(name, i);
      i := i + 1;
    }
    assert TypeHead(name[i..]) == "";
    head := name[..i];
  }

  lemma HeadStep(name: string, i: nat)
    requires i < |name| && !EndsHead(name[i])
    ensures name[..i] + TypeHead(name[i..]) == name[..i + 1] + TypeHead(name[i + 1..])
  {
    var rest := TypeHead(name[i + 1..]);
    assert name[i..][1..] == name[i + 1..] && name[..i + 1] == name[..i] + [name[i]];
    assert name[..i] + ([name[i]] + rest) == (name[..i] + [name[i]]) + rest;
  }

  lemma StripTrailingStops(s: string, c: char)
    requires s == "" || s[|s| - 1] != c
    ensures StripTrailing(s, c) == s
    ensures StripTrailing(s + [c], c) == s
  {
    assert (s + [c])[..|s|] == s;
  }

  /** Stripping takes one list marker off, or nothing when there is none. */
  lemma StripBrackets(base: string, n: nat)
    requires base != "" && base[|base| - 1] != ']' && base[|base| - 1] != '['
    ensures StripArraySuffix(base + Brackets(n)) == base + Brackets(if n == 0 then 0 else n - 1)
  {
    if n == 0 {
      assert base + "" == base;
      StripTrailingStops(base, ']');
      StripTrailingStops(base, '[');
    } else {
      var s := base + Brackets(n - 1);
      BracketsSnoc(n - 1);
      if n > 1 { BracketsSnoc(n - 2); }
      assert s[|s| - 1] != '[';
      StripTrailingStops(s, '[');
      StripTrailingStops(s + "[", ']');
      assert base + Brackets(n) == s + "[" + "]";
    }
  }

  lemma {:induction false} HeadIs(head: string, rest: string)
    requires forall i | 0 <= i < |head| :: !EndsHead(head[i])
    requires rest == "" || EndsHead(rest[0])
    ensures TypeHead(head + rest) == head
  {
    if head == "" {
      assert head + rest == rest;
    } else {
      assert (head + rest)[1..] == head[1..] + rest;
      HeadIs(head[1..], rest);
      assert head == [head[0]] + head[1..];
    }
  }

  /** What FromDuckDBType makes of a scalar text. */
  function LeafHead(text: string): string {
    if text == "TIMESTAMP WITH TIME ZONE" then "TIMESTAMP"
    else if text == "DECIMAL(38, 9)" || text == "DECIMAL(38, 38)" then "DECIMAL"
    else text
  }

  lemma {:induction false} NoZone(n: nat)
    ensures !Contains(Upper("TIMESTAMP" + Brackets(n)), ZONE)
  {
    NoW(n);
    var s := Upper("TIMESTAMP" + Brackets(n));
    forall i | 0 <= i <= |s| - |ZONE| ensures !OccursAt(s, ZONE, i) {
      assert s[i..i + |ZONE|][0] == s[i] && ZONE[0] == 'W';
    }
  }

  lemma {:induction false} NoW(n: nat)
    ensures forall i | 0 <= i < |Brackets(n)| :: Brackets(n)[i] in "[]"
    ensures forall i | 0 <= i < |"TIMESTAMP" + Brackets(n)| :: UpperChar(("TIMESTAMP" + Brackets(n))[i]) != 'W'
  {
    if n > 0 { NoW(n - 1); }
  }

  lemma ZoneFound(rest: string)
    ensures Contains(Upper("TIMESTAMP WITH TIME ZONE" + rest), ZONE)
  {
    var s := Upper("TIMESTAMP WITH TIME ZONE" + rest);
    assert OccursAt(s, ZONE, 10) by { assert s[10..10 + |ZONE|] == ZONE; }
  }

  lemma UpperHeads(text: string)
    requires IsLeafText(text)
    ensures Upper(LeafHead(text)) == LeafHead(text)
    ensures LeafHead(text) == "TIMESTAMP" <==> text == "TIMESTAMP" || text == "TIMESTAMP WITH TIME ZONE"
  {
  }

  lemma HeadBounds(text: string)
    requires IsLeafText(text)
    ensures text[|text| - 1] != ']' && text[|text| - 1] != '['
    ensures LeafHead(text) <= text && (LeafHead(text) == text || EndsHead(text[|LeafHead(text)|]))
    ensures forall i | 0 <= i < |LeafHead(text)| :: !EndsHead(LeafHead(text)[i])
  {
  }

  /** Stripping and head-finding on any expression followed by list markers. */
  lemma HeadReads(head: string, tail: string, n: nat) returns (k: nat)
    requires head + tail != "" && (head + tail)[|head + tail| - 1] !in {']', '['}
    requires forall i | 0 <= i < |head| :: !EndsHead(head[i])
    requires tail == "" || EndsHead(tail[0])
    ensures StripArraySuffix(head + tail + Brackets(n)) == head + tail + Brackets(k)
    ensures TypeHead(head + tail + Brackets(k)) == head
  {
    StripBrackets(head + tail, n);
    k := if n == 0 then 0 else n - 1;
    assert head + tail + Brackets(k) == head + (tail + Brackets(k));
    assert k > 0 ==> Brackets(k)[0] == '[';
    HeadIs(head, tail + Brackets(k));
  }

  /** A scalar text under any number of list markers reads back as it does bare. */
  lemma LeafReadsBack(text: string, n: nat)
    requires IsLeafText(text)
    ensures FromDuckDBType(text + Brackets(n)) ==
            if text == "TIMESTAMP" then Datetime
            else if text == "TIMESTAMP WITH TIME ZONE" then Timestamp
            else AliasType(LeafHead(text))
  {
    HeadBounds(text);
    var head := LeafHead(text);
    assert head + text[|head|..] == text;
    var k := HeadReads(head, text[|head|..], n);
    UpperHeads(text);
    NoZone(k);
    ZoneFound(Brackets(k));
  }

  /** A struct reads back as STRUCT whatever its fields hold, even a zoned timestamp. */
  lemma StructReadsBack(fields: seq<DuckField>, n: nat)
    ensures FromDuckDBType(Render(StructOf(fields)) + Brackets(n)) == Struct
  {
    var tail := "(" + RenderFields(fields) + ")";
    assert Render(StructOf(fields)) == "STRUCT" + tail;
    var k := HeadReads("STRUCT", tail, n);
    StructHead(Render(StructOf(fields)) + Brackets(n));
  }

  lemma StructHead(text: string)
    requires TypeHead(StripArraySuffix(text)) == "STRUCT"
    ensures FromDuckDBType(text) == Struct
  {
    assert Upper("STRUCT") == "STRUCT";
  }

  /** The column type left after peeling all array layers; an element-less array holds strings. */
  function LeafType(c: Column): ColumnType {
    if c.typ.Array? then (if c.fields == [] then String else LeafType(c.fields[0])) else c.typ
  }

  /** The leaf types the DuckDB text cannot tell from another one. */
  function Recovered(t: ColumnType, table: Table): ColumnType {
    match t
    case Bignumeric => if table.Storage? then String else Numeric
    case Geography => String
    case Unknown => String
    case _ => t
  }

  lemma {:induction false} LoweredBase(c: Column, table: Table)
    ensures var base := Base(LowerColumn(c, table));
            if LeafType(c).Struct? then base.StructOf?
            else base == Leaf(ScalarText(LeafType(c), table)) && !LeafType(c).Array?
  {
    if c.typ.Array? && c.fields != [] { LoweredBase(c.fields[0], table); }
  }

  lemma ScalarReadsBack(t: ColumnType, table: Table)
    requires !t.Struct? && !t.Array?
    ensures var text := ScalarText(t, table);
            Recovered(t, table) ==
            if text == "TIMESTAMP" then Datetime
            else if text == "TIMESTAMP WITH TIME ZONE" then Timestamp
            else AliasType(LeafHead(text))
  {
  }

  /** From the rendered text of any column, at any depth, the leaf type comes back up to `Recovered`. */
  lemma HeadRecovery(c: Column, table: Table)
    ensures FromDuckDBType(Render(LowerColumn(c, table))) == Recovered(LeafType(c), table)
  {
    var t := LowerColumn(c, table);
    LoweredWellFormed(c, table);
    RenderSplit(t);
    LoweredBase(c, table);
    if LeafType(c).Struct? {
      StructReadsBack(Base(t).fields, Layers(t));
    } else {
      LeafReadsBack(Base(t).text, Layers(t));
      ScalarReadsBack(LeafType(c), table);
    }
  }

  /** So the leaf type survives exactly when it is none of the three lossy ones. */
  lemma HeadSurvivesIff(c: Column, table: Table)
    ensures FromDuckDBType(Render(LowerColumn(c, table))) == LeafType(c) <==>
            LeafType(c) !in {Bignumeric, Geography, Unknown}
  {
    HeadRecovery(c, table);
  }
}
