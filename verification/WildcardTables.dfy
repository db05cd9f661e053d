/**
 Materialising a wildcard table from a dataset listing, the conservation of data by its row union,
 and a query's shared allow-lists (backend/catalog/googlesql_catalog_wildcard.cc,
 backend/catalog/wildcard_table.cc, backend/engine/duckdb/duckdb_executor_internal.h).
 */
module WildcardTables {
  import opened Basics
  import opened Schema
  import opened SuffixFilter
  import opened Wildcard
  import opened WildcardRows
  import opened TypeTranslation

  // ----- Matching and ordering -----

  function Matching(listed: seq<string>, wildcard: string): seq<string> {
    if listed == [] then []
    else (if TableMatchesWildcard(listed[0], wildcard) then [listed[0]] else []) + Matching(listed[1..], wildcard)
  }

  /** An id is matched exactly when it is listed and starts with the prefix. */
  lemma {:induction false} MatchingMember(listed: seq<string>, wildcard: string, id: string)
    ensures id in Matching(listed, wildcard) <==> id in listed && TableMatchesWildcard(id, wildcard)
  {
    if listed != [] { MatchingMember(listed[1..], wildcard, id); }
  }

  lemma MatchingStep(listed: seq<string>, wildcard: string, i: nat)
    requires i < |listed|
    ensures multiset(Matching(listed[i..], wildcard)) ==
            (if TableMatchesWildcard(listed[i], wildcard) then multiset{listed[i]} else multiset{})
            + multiset(Matching(listed[i + 1..], wildcard))
  {
    assert listed[i..][1..] == listed[i + 1..];
  }

  lemma MatchedListed(ids: seq<string>, listed: seq<string>, wildcard: string)
    requires multiset(ids) == multiset(Matching(listed, wildcard))
    ensures forall id | id in ids :: id in listed
  {
    forall id | id in ids ensures id in listed {
      assert id in multiset(ids);
      MatchingMember(listed, wildcard, id);
    }
  }

  method InsertIfMatched(matched: seq<string>, id: string, wildcard: string) returns (r: seq<string>)
    requires Sorted(matched)
    ensures Sorted(r)
    ensures multiset(r) == multiset(matched) + if TableMatchesWildcard(id, wildcard) then multiset{id} else multiset{}
  {
    r := matched;
    if TableMatchesWildcard(id, wildcard) {
      r := InsertSorted(matched, id);
    }
  }

  /** The matched ids, ordered by table id. */
  method MatchTables(listed: seq<string>, wildcard: string) returns (matched: seq<string>)
    ensures Sorted(matched) && multiset(matched) == multiset(Matching(listed, wildcard))
  {
    matched := [];
    var i := 0;
    assert listed[0..] == listed;
    while i < |listed|
      invariant 0 <= i <= |listed|
      invariant Sorted(matched)
      invariant multiset(matched) + multiset(Matching(listed[i..], wildcard)) == multiset(Matching(listed, wildcard))
    {
      MatchingStep(listed, wildcard, i);
      matched := InsertIfMatched(matched, listed[i], wildcard);
      i := i + 1;
    }
  }

  /** Prefix and suffix split a matched id without loss. */
  lemma SuffixSplits(id: string, wildcard: string)
    requires TableMatchesWildcard(id, wildcard)
    ensures WildcardTablePrefix(wildcard) + TableSuffixFor(id, WildcardTablePrefix(wildcard)) == id
  {
  }

  // ----- Materialising -----

  datatype WildcardTable = WildcardTable(prefix: string, maps: seq<ColumnMap>, union: seq<Column>)

  predicate Translatable(cols: seq<Column>) {
    forall c | c in cols :: ToType(c).Ok?
  }

  /** A type without its field names. */
  function Nameless(t: Type): Type
    decreases t, 1
  {
    match t
    case ArrayOf(e) => ArrayOf(Nameless(e))
    case StructOf(fields) => StructOf(AllNameless(fields))
    case RangeOf(b) => RangeOf(Nameless(b))
    case _ => t
  }

  function AllNameless(fields: seq<StructField>): (r: seq<StructField>)
    ensures |r| == |fields|
    decreases fields, 0
  {
    if fields == [] then [] else [StructField("", Nameless(fields[0].typ))] + AllNameless(fields[1..])
  }

  /** A skeleton as the analyzer sees it: it does not tell NULLABLE from REQUIRED. */
  function Seen(s: Skeleton): Skeleton
    decreases s, 1
  {
    Skeleton(s.typ, if s.mode.Required? then Nullable else s.mode, AllSeen(s.parts))
  }

  function AllSeen(parts: seq<Skeleton>): (r: seq<Skeleton>)
    ensures |r| == |parts|
    decreases parts, 0
  {
    if parts == [] then [] else [Seen(parts[0])] + AllSeen(parts[1..])
  }

  /** Two columns that translate have one type up to field names exactly when the analyzer sees one skeleton. */
  lemma {:induction false} SameTypeIff(a: Column, b: Column)
    requires ToType(a).Ok? && ToType(b).Ok?
    ensures Nameless(ToType(a).value) == Nameless(ToType(b).value) <==> Seen(SkeletonOf(a)) == Seen(SkeletonOf(b))
    decreases a, 1
  {
    Unwrapped(a);
    Unwrapped(b);
    KindsDiffer(a.typ, b.typ);
    if a.typ.Struct? && b.typ.Struct? { SameFieldTypesIff(a.fields, b.fields); }
  }

  /** The type of a column is that of its NULLABLE form, in an array when the column is repeated. */
  lemma Unwrapped(c: Column)
    requires ToType(c).Ok?
    ensures var t := if c.mode.Repeated? then ToType(c).value.element else ToType(c).value;
            && (c.mode.Repeated? ==> ToType(c).value.ArrayOf?)
            && (if c.typ.Struct? then ToFields(c.fields).Ok? && t == StructOf(ToFields(c.fields).value)
                else KindOf(c.typ).Some? && t == Scalar(KindOf(c.typ).value))
  {
  }

  lemma KindsDiffer(a: ColumnType, b: ColumnType)
    ensures KindOf(a).Some? && KindOf(a) == KindOf(b) ==> a == b
  {
  }

  lemma {:induction false} SameFieldTypesIff(cs: seq<Column>, ds: seq<Column>)
    requires ToFields(cs).Ok? && ToFields(ds).Ok?
    ensures AllNameless(ToFields(cs).value) == AllNameless(ToFields(ds).value) <==>
            AllSeen(SkeletonsOf(cs)) == AllSeen(SkeletonsOf(ds))
    decreases cs, 0
  {
    FieldCount(cs);
    FieldCount(ds);
    if cs != [] && |cs| == |ds| {
      FieldsHead(cs);
      FieldsHead(ds);
      SameTypeIff(cs[0], ds[0]);
      SameFieldTypesIff(cs[1..], ds[1..]);
      var x, y := Nameless(ToType(cs[0]).value), Nameless(ToType(ds[0]).value);
      var xs, ys := AllNameless(ToFields(cs[1..]).value), AllNameless(ToFields(ds[1..]).value);
      HeadAndTail(StructField("", x), xs, StructField("", y), ys);
      HeadAndTail(Seen(SkeletonOf(cs[0])), AllSeen(SkeletonsOf(cs[1..])),
                  Seen(SkeletonOf(ds[0])), AllSeen(SkeletonsOf(ds[1..])));
    }
  }

  lemma {:induction false} FieldCount(cs: seq<Column>)
    requires ToFields(cs).Ok?
    ensures |ToFields(cs).value| == |cs|
  {
    if cs != [] { FieldCount(cs[1..]); }
  }

  lemma FieldsHead(cs: seq<Column>)
    requires cs != [] && ToFields(cs).Ok?
    ensures ToType(cs[0]).Ok? && ToFields(cs[1..]).Ok?
    ensures AllNameless(ToFields(cs).value) ==
            [StructField("", Nameless(ToType(cs[0]).value))] + AllNameless(ToFields(cs[1..]).value)
    ensures AllSeen(SkeletonsOf(cs)) == [Seen(SkeletonOf(cs[0]))] + AllSeen(SkeletonsOf(cs[1..]))
  {
    var rest := ToFields(cs[1..]).value;
    assert ToFields(cs).value == [StructField(cs[0].name, ToType(cs[0]).value)] + rest;
    assert ToFields(cs).value[1..] == rest && SkeletonsOf(cs)[1..] == SkeletonsOf(cs[1..]);
  }

  /** Compatible columns translate to one type up to field names, so the first of a name speaks for all of them. */
  lemma {:induction false} CompatibleTranslate(a: Column, b: Column)
    requires Compatible(a, b)
    ensures ToType(a).Ok? <==> ToType(b).Ok?
    ensures ToType(a).Ok? ==> Nameless(ToType(a).value) == Nameless(ToType(b).value)
    decreases a, 1
  {
    if a.typ.Struct? { CompatibleFieldsTranslate(a.fields, b.fields); }
    if ToType(a).Ok? {
      CompatibleIff(a, b);
      SameTypeIff(a, b);
    }
  }

  lemma {:induction false} CompatibleFieldsTranslate(as_: seq<Column>, bs: seq<Column>)
    requires |as_| == |bs| && forall i | 0 <= i < |as_| :: Compatible(as_[i], bs[i])
    ensures ToFields(as_).Ok? <==> ToFields(bs).Ok?
    decreases as_, 0
  {
    if as_ != [] {
      CompatibleTranslate(as_[0], bs[0]);
      CompatibleFieldsTranslate(as_[1..], bs[1..]);
    }
  }

  lemma UnionTranslatable(all: seq<Column>, newest: seq<Column>, u: seq<Column>)
    requires IsUnion(all, newest, u) && PairwiseCompatible(all)
    ensures Translatable(u) <==> Translatable(all)
  {
    if Translatable(u) {
      forall i | 0 <= i < |all| ensures ToType(all[i]).Ok? { CoveredTranslates(all, newest, u, i); }
    }
    if Translatable(all) {
      forall i | 0 <= i < |u| ensures ToType(u[i]).Ok? {
        if i < |u| - 1 { assert u[i] == all[FirstIndex(all, u[i].name)]; }
      }
    }
  }

  lemma CoveredTranslates(all: seq<Column>, newest: seq<Column>, u: seq<Column>, i: nat)
    requires IsUnion(all, newest, u) && PairwiseCompatible(all) && i < |all| && Translatable(u)
    ensures ToType(all[i]).Ok?
  {
    var j := CoveredName(all, newest, u, i);
    var f := FirstIndex(all, all[i].name);
    assert u[j] == all[f];
    if f < i { CompatibleTranslate(all[f], all[i]); }
  }

  lemma CoveredName(all: seq<Column>, newest: seq<Column>, u: seq<Column>, i: nat) returns (j: nat)
    requires IsUnion(all, newest, u) && i < |all|
    ensures j < |u| - 1 && u[j].name == all[i].name
  {
    var front := u[..|u| - 1];
    assert HasName(front, all[i].name);
    j :| 0 <= j < |front| && front[j].name == all[i].name;
  }

  method TranslateColumns(cols: seq<Column>) returns (r: Result<seq<(string, Type)>>)
    ensures r.Ok? <==> Translatable(cols)
    ensures r.Ok? ==>
              && |r.value| == |cols|
              && forall k | 0 <= k < |cols| :: r.value[k] == (cols[k].name, ToType(cols[k]).value)
    ensures r.Err? ==> r.code == InvalidArgument
  {
    var out: seq<(string, Type)> := [];
    var i := 0;
    while i < |cols|
      invariant 0 <= i <= |cols| && |out| == i
      invariant forall k | 0 <= k < i :: ToType(cols[k]).Ok? && out[k] == (cols[k].name, ToType(cols[k]).value)
    {
      var t := ToGoogleSqlType(cols[i]);
      if t.Err? {
        TranslationCode(cols[i]);
        return Err(t.code);
      }
      out := out + [(cols[i].name, t.value)];
      i := i + 1;
    }
    r := Ok(out);
  }

  /** The table ids a wildcard table reads, in order. */
  function TableIds(maps: seq<ColumnMap>): seq<string> {
    seq(|maps|, k requires 0 <= k < |maps| => maps[k].tableId)
  }

  /** Whether tables can be read as one: none missing, all columns compatible and translatable. */
  ghost predicate Unifiable(storage: Storage, ids: seq<string>) {
    && (forall id | id in ids :: id in storage)
    && PairwiseCompatible(AllColumns(storage, ids))
    && Translatable(AllColumns(storage, ids))
  }

  lemma UnifiableAnyOrder(storage: Storage, ids: seq<string>, ids': seq<string>)
    requires multiset(ids) == multiset(ids')
    ensures Unifiable(storage, ids) <==> Unifiable(storage, ids')
    ensures ids == [] <==> ids' == []
  {
    SameMembers(ids, ids');
    if forall id | id in ids :: id in storage {
      UnificationOrderIndependent(storage, ids, ids', [], [], [], []);
      if Translatable(AllColumns(storage, ids)) { TranslatableMembers(storage, ids, ids'); }
      if Translatable(AllColumns(storage, ids')) { TranslatableMembers(storage, ids', ids); }
    }
  }

  lemma SameMembers(ids: seq<string>, ids': seq<string>)
    requires multiset(ids) == multiset(ids')
    ensures (forall id :: id in ids <==> id in ids') && (ids == [] <==> ids' == [])
  {
    forall id ensures id in ids <==> id in ids' {
      assert id in multiset(ids) <==> id in multiset(ids');
    }
    assert |multiset(ids)| == |ids| && |multiset(ids')| == |ids'|;
  }

  lemma TranslatableMembers(storage: Storage, ids: seq<string>, ids': seq<string>)
    requires (forall id | id in ids :: id in storage) && (forall id | id in ids' :: id in ids)
    requires Translatable(AllColumns(storage, ids))
    ensures Translatable(AllColumns(storage, ids'))
  {
    var all' := AllColumns(storage, ids');
    forall i | 0 <= i < |all'| ensures ToType(all'[i]).Ok? {
      AllColumnsMember(storage, ids', all'[i]);
      AllColumnsMember(storage, ids, all'[i]);
    }
  }

  /** A table over exactly these ids: sorted, with their union as schema and a map for each. */
  ghost predicate Materialised(storage: Storage, listed: seq<string>, wildcard: string, t: WildcardTable) {
    var ids := TableIds(t.maps);
    && ids != [] && (forall id | id in ids :: id in storage)
    && Sorted(ids) && multiset(ids) == multiset(Matching(listed, wildcard))
    && t.prefix == WildcardTablePrefix(wildcard)
    && IsUnion(AllColumns(storage, ids), storage[ids[|ids| - 1]].schema, t.union)
    && MapsFor(storage, ids, t.union, t.maps)
  }

  /**
   The whole path from a listing to a table: it succeeds exactly when something matches and the matched
   tables can be read as one.
   */
  method MaterializeWildcardTable(storage: Storage, listed: seq<string>, wildcard: string)
    returns (r: Result<WildcardTable>)
    ensures r.Ok? <==> Matching(listed, wildcard) != [] && Unifiable(storage, Matching(listed, wildcard))
    ensures r.Ok? ==> Materialised(storage, listed, wildcard, r.value)
    ensures Matching(listed, wildcard) == [] ==> r == Err(NotFound)
    ensures (forall id | id in listed :: id in storage) ==> (r == Err(NotFound) <==> Matching(listed, wildcard) == [])
    ensures r.Err? ==> r.code in {NotFound, InvalidArgument}
  {
    var ids := MatchTables(listed, wildcard);
    UnifiableAnyOrder(storage, ids, Matching(listed, wildcard));
    if ids == [] { return Err(NotFound); }
    var unified := UnifyWildcardTableSchemas(storage, ids);
    MatchedListed(ids, listed, wildcard);
    if unified.Err? { return Err(unified.code); }
    UnionTranslatable(AllColumns(storage, ids), storage[ids[|ids| - 1]].schema, unified.value);
    var maps := BuildWildcardColumnMaps(storage, ids, unified.value);
    var columns := TranslateColumns(unified.value);
    if columns.Err? { return Err(columns.code); }
    assert TableIds(maps.value) == ids;
    r := Ok(WildcardTable(WildcardTablePrefix(wildcard), maps.value, unified.value));
  }

  lemma {:induction false} TranslationCode(c: Column)
    requires ToType(c).Err?
    ensures ToType(c).code == InvalidArgument
    decreases c, 1
  {
    if c.typ.Struct? { FieldsTranslationCode(c.fields); }
  }

  lemma {:induction false} FieldsTranslationCode(cs: seq<Column>)
    requires ToFields(cs).Err?
    ensures ToFields(cs).code == InvalidArgument
    decreases cs, 0
  {
    if ToType(cs[0]).Err? { TranslationCode(cs[0]); } else { FieldsTranslationCode(cs[1..]); }
  }

  // ----- Conservation of data -----

  /** A physical row as wide as its schema, missing cells being NULL. */
  function Padded(row: Row, schema: seq<Column>): Row {
    seq(|schema|, k requires 0 <= k < |schema| => if k < |row| then row[k] else Null)
  }

  /** The table id and physical row a union row came from, read off the union row alone. */
  function Recover(storage: Storage, prefix: string, union: seq<Column>, row: Row): (string, Row)
    requires |row| == |union| && row != [] && row[|row| - 1].Str?
  {
    var id := prefix + row[|row| - 1].s;
    if id !in storage then (id, [])
    else
      (id, ReadBack(storage[id].schema, union, row))
  }

  /** The physical row as the union row shows it: each column where the union has its name. */
  function ReadBack(schema: seq<Column>, union: seq<Column>, row: Row): Row {
    seq(|schema|, k requires 0 <= k < |schema| =>
      var u := IndexOf(union, schema[k].name); if 0 <= u < |row| then row[u] else Null)
  }

  predicate DataSchema(schema: seq<Column>) {
    DistinctNames(schema) && !HasName(schema, TABLE_SUFFIX)
  }

  /** Every physical cell sits at the union position of its name; columns the table lacks are NULL. */
  lemma CellsPlaced(physical: Row, id: string, schema: seq<Column>, union: seq<Column>, suffix: string)
    requires DataSchema(schema) && forall k | 0 <= k < |schema| :: HasName(union, schema[k].name)
    ensures var row := UnionRow(physical, MapFor(id, schema, union), union, suffix);
            && (forall k | 0 <= k < |schema| ::
                  0 <= IndexOf(union, schema[k].name) < |row| &&
                  row[IndexOf(union, schema[k].name)] == Padded(physical, schema)[k])
            && (forall u | 0 <= u < |union| && union[u].name != TABLE_SUFFIX && !HasName(schema, union[u].name) ::
                  row[u] == Null)
  {
    var row := UnionRow(physical, MapFor(id, schema, union), union, suffix);
    forall k | 0 <= k < |schema|
      ensures 0 <= IndexOf(union, schema[k].name) < |row|
      ensures row[IndexOf(union, schema[k].name)] == Padded(physical, schema)[k]
    {
      IndexOfFirst(union, schema[k].name);
      IndexOfFirst(schema, schema[k].name);
      assert IndexOf(schema, schema[k].name) == k;
      assert schema[k].name != TABLE_SUFFIX;
    }
    forall u | 0 <= u < |union| && union[u].name != TABLE_SUFFIX && !HasName(schema, union[u].name)
      ensures row[u] == Null
    {
      IndexOfFirst(schema, union[u].name);
    }
  }

  /** A row survives the union, whatever its cells, exactly when names are distinct and none is the suffix's. */
  lemma RowSurvivesIff(id: string, schema: seq<Column>, union: seq<Column>, suffix: string)
    requires forall k | 0 <= k < |schema| :: HasName(union, schema[k].name)
    ensures (forall physical :: ReadBack(schema, union, UnionRow(physical, MapFor(id, schema, union), union, suffix)) ==
                                Padded(physical, schema))
            <==> DataSchema(schema)
  {
    if DataSchema(schema) {
      forall physical
        ensures ReadBack(schema, union, UnionRow(physical, MapFor(id, schema, union), union, suffix)) ==
                Padded(physical, schema)
      {
        CellsPlaced(physical, id, schema, union, suffix);
      }
    } else if HasName(schema, TABLE_SUFFIX) {
      SuffixNameLost(id, schema, union, suffix);
    } else {
      SharedNameLost(id, schema, union, suffix);
    }
  }

  lemma SuffixNameLost(id: string, schema: seq<Column>, union: seq<Column>, suffix: string)
    requires HasName(schema, TABLE_SUFFIX) && forall k | 0 <= k < |schema| :: HasName(union, schema[k].name)
    ensures ReadBack(schema, union, UnionRow([], MapFor(id, schema, union), union, suffix)) != Padded([], schema)
  {
    var k :| 0 <= k < |schema| && schema[k].name == TABLE_SUFFIX;
    IndexOfFirst(union, schema[k].name);
    assert ReadBack(schema, union, UnionRow([], MapFor(id, schema, union), union, suffix))[k] == Str(suffix);
    assert Padded([], schema)[k] == Null;
  }

  lemma SharedNameLost(id: string, schema: seq<Column>, union: seq<Column>, suffix: string)
    requires !DistinctNames(schema)
    ensures exists physical ::
              ReadBack(schema, union, UnionRow(physical, MapFor(id, schema, union), union, suffix)) !=
              Padded(physical, schema)
  {
    var i, j :| 0 <= i < j < |schema| && schema[i].name == schema[j].name;
    var physical := seq(j, _ => Null) + [Str("")];
    var back := ReadBack(schema, union, UnionRow(physical, MapFor(id, schema, union), union, suffix));
    assert back[i] == back[j] && Padded(physical, schema)[i] == Null && Padded(physical, schema)[j] == Str("");
  }

  /** The physical rows of the matched tables with their table ids, in table-then-scan order. */
  function Labelled(storage: Storage, matched: seq<string>): seq<(string, Row)>
    requires forall id | id in matched :: id in storage
  {
    if matched == [] then []
    else LabelledTable(matched[0], storage[matched[0]]) + Labelled(storage, matched[1..])
  }

  function LabelledTable(id: string, table: Table): seq<(string, Row)> {
    seq(|table.rows|, i requires 0 <= i < |table.rows| => (id, Padded(table.rows[i], table.schema)))
  }

  ghost predicate RecoversTo(storage: Storage, prefix: string, union: seq<Column>, rows: seq<Row>,
                             from: seq<(string, Row)>)
  {
    |rows| == |from| &&
    forall i | 0 <= i < |rows| ::
      && |rows[i]| == |union| && rows[i] != [] && rows[i][|rows[i]| - 1].Str?
      && Recover(storage, prefix, union, rows[i]) == from[i]
  }

  lemma TableRecovers(storage: Storage, prefix: string, union: seq<Column>, id: string)
    requires id in storage && prefix <= id && DataSchema(storage[id].schema) && EndsInSuffix(union)
    requires forall k | 0 <= k < |storage[id].schema| :: HasName(union, storage[id].schema[k].name)
    ensures var schema := storage[id].schema;
            RecoversTo(storage, prefix, union,
                       TableRows(storage[id].rows, MapFor(id, schema, union), union, TableSuffixFor(id, prefix)),
                       LabelledTable(id, storage[id]))
  {
    var schema, suffix := storage[id].schema, TableSuffixFor(id, prefix);
    var m := MapFor(id, schema, union);
    var rows, from := TableRows(storage[id].rows, m, union, suffix), LabelledTable(id, storage[id]);
    assert prefix + suffix == id;
    forall i | 0 <= i < |rows|
      ensures |rows[i]| == |union| && rows[i][|rows[i]| - 1] == Str(suffix)
      ensures Recover(storage, prefix, union, rows[i]) == from[i]
    {
      RowRecovers(storage, prefix, union, id, storage[id].rows[i], rows[i], suffix);
    }
  }

  lemma RowRecovers(storage: Storage, prefix: string, union: seq<Column>, id: string,
                    physical: Row, row: Row, suffix: string)
    requires id in storage && prefix + suffix == id && DataSchema(storage[id].schema) && EndsInSuffix(union)
    requires forall k | 0 <= k < |storage[id].schema| :: HasName(union, storage[id].schema[k].name)
    requires row == UnionRow(physical, MapFor(id, storage[id].schema, union), union, suffix)
    ensures |row| == |union| && row != [] && row[|row| - 1] == Str(suffix)
    ensures Recover(storage, prefix, union, row) == (id, Padded(physical, storage[id].schema))
  {
    ReadBackIs(physical, id, storage[id].schema, union, suffix);
  }

  lemma ReadBackIs(physical: Row, id: string, schema: seq<Column>, union: seq<Column>, suffix: string)
    requires DataSchema(schema) && forall k | 0 <= k < |schema| :: HasName(union, schema[k].name)
    ensures ReadBack(schema, union, UnionRow(physical, MapFor(id, schema, union), union, suffix)) ==
            Padded(physical, schema)
  {
    CellsPlaced(physical, id, schema, union, suffix);
  }

  /**
   The full union loses, invents and reorders nothing: read back row by row, it is exactly the labelled
   rows of the matched tables, in table-then-scan order.
   */
  lemma {:induction false} UnionConservesData(storage: Storage, matched: seq<string>, union: seq<Column>,
                                              maps: seq<ColumnMap>, prefix: string)
    requires MapsFor(storage, matched, union, maps) && EndsInSuffix(union)
    requires forall id | id in matched :: id in storage && prefix <= id && DataSchema(storage[id].schema)
    requires forall id, k | id in matched && 0 <= k < |storage[id].schema| :: HasName(union, storage[id].schema[k].name)
    ensures FitUnion(maps, union)
    ensures var full := UnionRows(storage, maps, union, prefix, None);
            if exists id :: id in matched && storage[id].scanFails then full == Err(Internal)
            else full.Ok? && RecoversTo(storage, prefix, union, full.value, Labelled(storage, matched))
  {
    if matched != [] {
      var id := matched[0];
      var here := TableRows(storage[id].rows, maps[0], union, TableSuffixFor(id, prefix));
      MapsForTail(storage, matched, union, maps);
      UnionConservesData(storage, matched[1..], union, maps[1..], prefix);
      TableRecovers(storage, prefix, union, id);
      assert (exists i :: i in matched && storage[i].scanFails) <==>
             storage[id].scanFails || exists i :: i in matched[1..] && storage[i].scanFails by {
        assert matched == [id] + matched[1..];
      }
      var tail := UnionRows(storage, maps[1..], union, prefix, None);
      if !storage[id].scanFails && tail.Ok? {
        RecoversConcat(storage, prefix, union, here, LabelledTable(id, storage[id]),
                       tail.value, Labelled(storage, matched[1..]));
      }
    }
  }

  lemma MapsForTail(storage: Storage, matched: seq<string>, union: seq<Column>, maps: seq<ColumnMap>)
    requires MapsFor(storage, matched, union, maps) && matched != []
    ensures MapsFor(storage, matched[1..], union, maps[1..])
    ensures FitUnion(maps, union)
  {
    forall k | 0 <= k < |matched| - 1
      ensures maps[1..][k] == MapFor(matched[1..][k], storage[matched[1..][k]].schema, union)
    {
      assert maps[1..][k] == maps[k + 1] && matched[1..][k] == matched[k + 1];
    }
  }

  lemma RecoversConcat(storage: Storage, prefix: string, union: seq<Column>, a: seq<Row>, x: seq<(string, Row)>,
                       b: seq<Row>, y: seq<(string, Row)>)
    requires RecoversTo(storage, prefix, union, a, x) && RecoversTo(storage, prefix, union, b, y)
    ensures RecoversTo(storage, prefix, union, a + b, x + y)
  {
  }

  lemma UnionHoldsColumn(storage: Storage, matched: seq<string>, union: seq<Column>, id: string, k: nat)
    requires id in matched && (forall m | m in matched :: m in storage) && k < |storage[id].schema|
    requires IsUnion(AllColumns(storage, matched), storage[matched[|matched| - 1]].schema, union)
    ensures HasName(union, storage[id].schema[k].name)
  {
    var all := AllColumns(storage, matched);
    var i :| 0 <= i < |matched| && matched[i] == id;
    TableAmongAll(storage, matched, i);
    var f := FirstIndex(all, storage[id].schema[k].name);
    var u := CoveredName(all, storage[matched[|matched| - 1]].schema, union, f);
    assert union[u].name == storage[id].schema[k].name;
  }

  /** A materialised wildcard table conserves the data of every matched table, or fails with one of them. */
  lemma WildcardConservesData(storage: Storage, listed: seq<string>, wildcard: string, t: WildcardTable)
    requires Materialised(storage, listed, wildcard, t)
    requires forall id | id in TableIds(t.maps) :: DataSchema(storage[id].schema)
    ensures FitUnion(t.maps, t.union)
    ensures var full := UnionRows(storage, t.maps, t.union, t.prefix, None);
            if exists id :: id in TableIds(t.maps) && storage[id].scanFails then full == Err(Internal)
            else full.Ok? && RecoversTo(storage, t.prefix, t.union, full.value, Labelled(storage, TableIds(t.maps)))
  {
    var matched := TableIds(t.maps);
    forall id | id in matched ensures t.prefix <= id {
      assert id in multiset(matched);
      MatchingMember(listed, wildcard, id);
    }
    forall id, k | id in matched && 0 <= k < |storage[id].schema| ensures HasName(t.union, storage[id].schema[k].name) {
      UnionHoldsColumn(storage, matched, t.union, id, k);
    }
    UnionConservesData(storage, matched, t.union, t.maps, t.prefix);
  }

  // ----- One query, several scans -----

  /** A scan of one wildcard table, with the filter directly above it if there is one. */
  datatype Scan = Scan(filter: Option<Expr>)

  function ScanList(s: Scan): Option<seq<string>> {
    if s.filter.Some? then AllowList(s.filter.value) else None
  }

  /**
   The allow-list the query ends up with for a table: the executor keeps one per table object, and a
   later scan of the same table overwrites an earlier one's.
   */
  function QueryList(scans: seq<Scan>): Option<seq<string>> {
    if scans == [] then None
    else
      var last := ScanList(scans[|scans| - 1]);
      if last.Some? then last else QueryList(scans[..|scans| - 1])
  }

  predicate Gives(s: Scan, allow: seq<string>) {
    s.filter.Some? && AllowList(s.filter.value) == Some(allow)
  }

  /** The list in force is the last one any scan gives; scans that give none leave it alone. */
  lemma {:induction false} LastListWins(scans: seq<Scan>, allow: seq<string>)
    ensures QueryList(scans) == Some(allow) <==>
            exists k | 0 <= k < |scans| ::
              Gives(scans[k], allow) && forall i, other | k < i < |scans| :: !Gives(scans[i], other)
  {
    if scans != [] {
      var n := |scans| - 1;
      var rest := scans[..n];
      LastListWins(rest, allow);
      if ScanList(scans[n]).Some? {
        assert Gives(scans[n], ScanList(scans[n]).value);
      } else {
        assert forall other :: !Gives(scans[n], other);
        assert forall i | 0 <= i < n :: rest[i] == scans[i];
      }
    }
  }

  method CollectAllowList(scans: seq<Scan>) returns (allow: Option<seq<string>>)
    ensures allow == QueryList(scans)
  {
    allow := None;
    var i := 0;
    while i < |scans|
      invariant 0 <= i <= |scans|
      invariant allow == QueryList(scans[..i])
    {
      assert scans[..i + 1][..i] == scans[..i];
      if scans[i].filter.Some? {
        var part := ExtractFromExpr(scans[i].filter.value);
        if part.Some? { allow := part; }
      }
      i := i + 1;
    }
    assert scans[..i] == scans;
  }

  /** When every scan of the table extracts the same list, that list is the one used. */
  lemma {:induction false} AgreeingScans(scans: seq<Scan>, allow: Option<seq<string>>)
    requires scans != [] && forall s | s in scans :: ScanList(s) == allow
    ensures QueryList(scans) == allow
  {
    var rest := scans[..|scans| - 1];
    if allow.None? && rest != [] {
      AgreeingScans(rest, allow);
    }
  }

  /** The rows of a scan its query goes on with: those its filter keeps, or all. */
  ghost function Passed(rows: seq<Row>, scan: Scan, env: Env): seq<Row>
    requires Suffixed(rows)
  {
    if scan.filter.Some? then Where(rows, scan.filter.value, env) else rows
  }

  /** The filter of a scan; one that keeps everything where there is none. */
  function FilterOf(scan: Scan): Expr {
    if scan.filter.Some? then scan.filter.value else Literal(Bool(true))
  }

  lemma {:induction false} PassedIsWhere(rows: seq<Row>, scan: Scan, env: Env)
    requires Suffixed(rows)
    ensures Passed(rows, scan, env) == Where(rows, FilterOf(scan), env)
  {
    if rows != [] {
      PassedIsWhere(rows[1..], scan, env);
      assert rows == [rows[0]] + rows[1..];
    }
  }

  /** What a scan passes on under a list is what it would pass on from all tables. */
  ghost predicate Preserved(storage: Storage, t: WildcardTable, allow: Option<seq<string>>, scan: Scan, env: Env)
    requires FitUnion(t.maps, t.union)
  {
    var seen := UnionRows(storage, t.maps, t.union, t.prefix, allow);
    var full := UnionRows(storage, t.maps, t.union, t.prefix, None);
    && seen.Ok? && full.Ok? && Suffixed(seen.value) && Suffixed(full.value)
    && Passed(seen.value, scan, env) == Passed(full.value, scan, env)
  }

  /** On given rows, a scan is preserved exactly when every table it keeps a row of is scanned. */
  lemma PreservedIff(storage: Storage, t: WildcardTable, allow: Option<seq<string>>, scan: Scan, env: Env)
    requires FitUnion(t.maps, t.union) && EndsInSuffix(t.union)
    requires UnionRows(storage, t.maps, t.union, t.prefix, None).Ok?
    ensures Preserved(storage, t, allow, scan, env) <==>
            KeptTablesScanned(storage, t.maps, t.union, t.prefix, allow, FilterOf(scan), env)
  {
    SkippingPreservesIff(storage, t.maps, t.union, t.prefix, allow, FilterOf(scan), env);
    PassedIsWhere(UnionRows(storage, t.maps, t.union, t.prefix, allow).value, scan, env);
    PassedIsWhere(UnionRows(storage, t.maps, t.union, t.prefix, None).value, scan, env);
  }

  /** Whether a scan can keep a row of a table with that suffix, whatever its other columns hold. */
  ghost predicate CanKeep(scan: Scan, s: string) {
    exists rest: Expr -> Value :: Keeps(FilterOf(scan), s, rest)
  }

  /** Every matched table the scan can keep a row of is scanned: a condition on ids and filters alone. */
  ghost predicate ListCovers(ids: seq<string>, prefix: string, allow: Option<seq<string>>, scan: Scan) {
    forall id | id in ids && CanKeep(scan, TableSuffixFor(id, prefix)) :: Scanned(id, prefix, allow)
  }

  /** Some content of the same tables, with every scan going through. */
  ghost predicate ContentOf(content: Storage, storage: Storage) {
    content.Keys == storage.Keys &&
    forall id | id in storage :: content[id].schema == storage[id].schema && !content[id].scanFails
  }

  lemma {:induction false} ContentReads(content: Storage, storage: Storage, ids: seq<string>, union: seq<Column>,
                                        maps: seq<ColumnMap>, prefix: string)
    requires ContentOf(content, storage) && MapsFor(storage, ids, union, maps)
    ensures FitUnion(maps, union) && UnionRows(content, maps, union, prefix, None).Ok?
    decreases |maps|
  {
    if ids != [] {
      MapsForTail(storage, ids, union, maps);
      ContentReads(content, storage, ids[1..], union, maps[1..], prefix);
    }
  }

  /** One row in every table. */
  function OneRowEach(storage: Storage): Storage {
    map id | id in storage :: Table(storage[id].schema, [[]], false)
  }

  /** A table the scan can keep a row of but the list skips loses that row for some content. */
  lemma SkippedTableLoses(storage: Storage, ids: seq<string>, t: WildcardTable, allow: Option<seq<string>>, scan: Scan,
                          id: string)
    requires MapsFor(storage, ids, t.union, t.maps) && EndsInSuffix(t.union) && FitUnion(t.maps, t.union)
    requires id in ids && CanKeep(scan, TableSuffixFor(id, t.prefix)) && !Scanned(id, t.prefix, allow)
    ensures exists content, env :: ContentOf(content, storage) && !Preserved(content, t, allow, scan, env)
  {
    var s := TableSuffixFor(id, t.prefix);
    var rest: Expr -> Value :| Keeps(FilterOf(scan), s, rest);
    var content, env: Env := OneRowEach(storage), row => rest;
    assert ContentOf(content, storage);
    ContentReads(content, storage, ids, t.union, t.maps, t.prefix);
    var k :| 0 <= k < |ids| && ids[k] == id;
    var m := t.maps[k];
    assert m in t.maps && m.tableId == id;
    KeepsOneRow(m, t.union, s, FilterOf(scan), env, rest);
    PreservedIff(content, t, allow, scan, env);
    assert !KeptTablesScanned(content, t.maps, t.union, t.prefix, allow, FilterOf(scan), env);
  }

  lemma KeepsOneRow(m: ColumnMap, union: seq<Column>, s: string, e: Expr, env: Env, rest: Expr -> Value)
    requires |union| == |m.toPhysical| && EndsInSuffix(union)
    requires Keeps(e, s, rest) && env == (row => rest)
    ensures HasKept([[]], m, union, s, e, env)
  {
    TableRowsSuffixed([[]], m, union, s);
    var row := TableRows([[]], m, union, s)[0];
    assert row in TableRows([[]], m, union, s) && env(row) == rest;
    assert KeepsRow(e, row, env);
  }

  /**
   A scan, filtered or not, is preserved whatever the matched tables hold exactly when the list the query
   ended up with covers every table the scan can keep a row of.
   */
  lemma SharedListPreservesIff(storage: Storage, ids: seq<string>, t: WildcardTable, scans: seq<Scan>, k: nat)
    requires MapsFor(storage, ids, t.union, t.maps) && EndsInSuffix(t.union) && k < |scans|
    ensures FitUnion(t.maps, t.union)
    ensures (forall content, env | ContentOf(content, storage) ::
               Preserved(content, t, QueryList(scans), scans[k], env)) <==>
            ListCovers(ids, t.prefix, QueryList(scans), scans[k])
  {
    FitsAll(storage, ids, t.union, t.maps);
    var allow, scan := QueryList(scans), scans[k];
    if ListCovers(ids, t.prefix, allow, scan) {
      forall content, env | ContentOf(content, storage) ensures Preserved(content, t, allow, scan, env) {
        CoveredIsPreserved(content, storage, ids, t, allow, scan, env);
      }
    } else {
      var id :| id in ids && CanKeep(scan, TableSuffixFor(id, t.prefix)) && !Scanned(id, t.prefix, allow);
      SkippedTableLoses(storage, ids, t, allow, scan, id);
    }
  }

  lemma FitsAll(storage: Storage, ids: seq<string>, union: seq<Column>, maps: seq<ColumnMap>)
    requires MapsFor(storage, ids, union, maps)
    ensures FitUnion(maps, union)
  {
  }

  lemma CoveredIsPreserved(content: Storage, storage: Storage, ids: seq<string>, t: WildcardTable,
                           allow: Option<seq<string>>, scan: Scan, env: Env)
    requires ContentOf(content, storage) && MapsFor(storage, ids, t.union, t.maps)
    requires FitUnion(t.maps, t.union) && EndsInSuffix(t.union) && ListCovers(ids, t.prefix, allow, scan)
    ensures Preserved(content, t, allow, scan, env)
  {
    ContentReads(content, storage, ids, t.union, t.maps, t.prefix);
    var e := FilterOf(scan);
    forall m | m in t.maps && m.tableId in content
                && HasKept(content[m.tableId].rows, m, t.union, TableSuffixFor(m.tableId, t.prefix), e, env)
      ensures Scanned(m.tableId, t.prefix, allow)
    {
      var s := TableSuffixFor(m.tableId, t.prefix);
      TableRowsSuffixed(content[m.tableId].rows, m, t.union, s);
      var row :| row in TableRows(content[m.tableId].rows, m, t.union, s) && KeepsRow(e, row, env);
      assert Keeps(e, s, env(row)) && CanKeep(scan, s);
      assert m.tableId in ids;
    }
    PreservedIff(content, t, allow, scan, env);
  }

  /** Scans that extract the same list, from filters of a safe shape or none at all, are all preserved. */
  lemma AgreeingScansPreserved(storage: Storage, ids: seq<string>, t: WildcardTable, scans: seq<Scan>, k: nat,
                               allow: Option<seq<string>>)
    requires MapsFor(storage, ids, t.union, t.maps) && EndsInSuffix(t.union) && k < |scans|
    requires forall s | s in scans :: ScanList(s) == allow
    requires allow.Some? ==> scans[k].filter.Some? && SafeShape(scans[k].filter.value)
    ensures FitUnion(t.maps, t.union)
    ensures forall content, env | ContentOf(content, storage) :: Preserved(content, t, QueryList(scans), scans[k], env)
  {
    AgreeingScans(scans, allow);
    assert scans[k] in scans;
    forall id | id in ids && CanKeep(scans[k], TableSuffixFor(id, t.prefix)) ensures Scanned(id, t.prefix, allow) {
      var s := TableSuffixFor(id, t.prefix);
      var rest: Expr -> Value :| Keeps(FilterOf(scans[k]), s, rest);
      if allow.Some? { SafeShapeScansKept(scans[k].filter.value, s, rest); }
    }
    SharedListPreservesIff(storage, ids, t, scans, k);
  }

  /** Two filtered scans of one wildcard table: the second one's list hides the first one's rows. */
  lemma SecondScanHidesFirst(rest: Expr -> Value)
    ensures var scans := [Scan(Some(Equal("a"))), Scan(Some(Equal("b")))];
            QueryList(scans) == Some(["b"]) && Keeps(Equal("a"), "a", rest) && !SuffixMatches("a", ["b"])
  {
    assert IsCall(Equal("a"), "$equal") && IsCall(Equal("b"), "$equal");
    var e := Equal("a");
    assert Eval(e.args[0], "a", rest) == Str("a") && Eval(e.args[1], "a", rest) == Str("a");
  }
}
