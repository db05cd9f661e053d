/**
 The row union of a wildcard table and its pruning by a `_TABLE_SUFFIX` allow-list
 (backend/catalog/wildcard_table_util.cc, backend/catalog/wildcard_table.cc).
 */
module WildcardRows {
  import opened Basics
  import opened Schema
  import opened SuffixFilter
  import opened Wildcard

  /** For each union column, the physical cell index in one matched table, or -1. */
  datatype ColumnMap = ColumnMap(tableId: string, schema: seq<Column>, toPhysical: seq<int>)

  function PhysicalIndex(schema: seq<Column>, name: string): int {
    if name == TABLE_SUFFIX then -1 else IndexOf(schema, name)
  }

  function MapFor(id: string, schema: seq<Column>, union: seq<Column>): ColumnMap {
    ColumnMap(id, schema, seq(|union|, u requires 0 <= u < |union| => PhysicalIndex(schema, union[u].name)))
  }

  // ----- Building the maps -----

  /** First position of every name, as the source's hash map with `emplace` holds it. */
  method PhysicalByName(schema: seq<Column>) returns (byName: map<string, nat>)
    ensures forall n :: n in byName <==> HasName(schema, n)
    ensures forall n | n in byName :: byName[n] == IndexOf(schema, n)
  {
    byName := map[];
    var i := 0;
    while i < |schema|
      invariant 0 <= i <= |schema|
      invariant forall n :: n in byName <==> exists k :: 0 <= k < i && schema[k].name == n
      invariant forall n | n in byName ::
                  byName[n] < i && schema[byName[n]].name == n && forall k | 0 <= k < byName[n] :: schema[k].name != n
    {
      if schema[i].name !in byName { byName := byName[schema[i].name := i]; }
      i := i + 1;
    }
    forall n | n in byName ensures byName[n] == IndexOf(schema, n) {
      IndexOfFirst(schema, n);
    }
  }

  method BuildColumnMap(id: string, schema: seq<Column>, union: seq<Column>) returns (m: ColumnMap)
    ensures m == MapFor(id, schema, union)
  {
    var byName := PhysicalByName(schema);
    var toPhysical: seq<int> := [];
    var u := 0;
    while u < |union|
      invariant 0 <= u <= |union| && |toPhysical| == u
      invariant forall k | 0 <= k < u :: toPhysical[k] == PhysicalIndex(schema, union[k].name)
    {
      IndexOfFirst(schema, union[u].name);
      if union[u].name == TABLE_SUFFIX || union[u].name !in byName {
        toPhysical := toPhysical + [-1];
      } else {
        toPhysical := toPhysical + [byName[union[u].name]];
      }
      u := u + 1;
    }
    m := ColumnMap(id, schema, toPhysical);
    assert m.toPhysical == MapFor(id, schema, union).toPhysical;
  }

  method BuildWildcardColumnMaps(storage: Storage, matched: seq<string>, union: seq<Column>)
    returns (r: Result<seq<ColumnMap>>)
    ensures r.Ok? <==> forall id | id in matched :: id in storage
    ensures r.Ok? ==> MapsFor(storage, matched, union, r.value)
    ensures r.Err? ==> r.code == NotFound
  {
    var out: seq<ColumnMap> := [];
    var t := 0;
    while t < |matched|
      invariant 0 <= t <= |matched| && |out| == t
      invariant forall k | 0 <= k < t ::
                  matched[k] in storage && out[k] == MapFor(matched[k], storage[matched[k]].schema, union)
    {
      if matched[t] !in storage { return Err(NotFound); }
      var m := BuildColumnMap(matched[t], storage[matched[t]].schema, union);
      out := out + [m];
      t := t + 1;
    }
    r := Ok(out);
  }

  ghost predicate MapsFor(storage: Storage, matched: seq<string>, union: seq<Column>, maps: seq<ColumnMap>) {
    |maps| == |matched| &&
    forall k | 0 <= k < |matched| ::
      matched[k] in storage && maps[k] == MapFor(matched[k], storage[matched[k]].schema, union)
  }

  // ----- One row -----

  function UnionCell(physical: Row, m: ColumnMap, union: seq<Column>, suffix: string, u: nat): Value
    requires u < |union| == |m.toPhysical|
  {
    if union[u].name == TABLE_SUFFIX then Str(suffix)
    else if 0 <= m.toPhysical[u] < |physical| then physical[m.toPhysical[u]]
    else Null
  }

  function UnionRow(physical: Row, m: ColumnMap, union: seq<Column>, suffix: string): Row
    requires |union| == |m.toPhysical|
  {
    seq(|union|, u requires 0 <= u < |union| => UnionCell(physical, m, union, suffix, u))
  }

  method BuildUnionRow(physical: Row, m: ColumnMap, union: seq<Column>, suffix: string) returns (r: Row)
    requires |union| == |m.toPhysical|
    ensures r == UnionRow(physical, m, union, suffix)
  {
    var cells := new Value[|union|](_ => Null);
    var u := 0;
    while u < |union|
      invariant 0 <= u <= |union|
      invariant forall k | 0 <= k < u :: cells[k] == UnionCell(physical, m, union, suffix, k)
    {
      if union[u].name == TABLE_SUFFIX {
        cells[u] := Str(suffix);
      } else if m.toPhysical[u] < 0 || m.toPhysical[u] >= |physical| {
        cells[u] := Null;
      } else {
        cells[u] := physical[m.toPhysical[u]];
      }
      u := u + 1;
    }
    r := cells[..];
  }

  // ----- All rows -----

  function TableRows(rows: seq<Row>, m: ColumnMap, union: seq<Column>, suffix: string): seq<Row>
    requires |union| == |m.toPhysical|
  {
    seq(|rows|, i requires 0 <= i < |rows| => UnionRow(rows[i], m, union, suffix))
  }

  /** Whether a table is scanned under an optional allow-list. */
  predicate Scanned(id: string, prefix: string, allow: Option<seq<string>>) {
    allow.Some? ==> SuffixMatches(TableSuffixFor(id, prefix), allow.value)
  }

  predicate FitUnion(maps: seq<ColumnMap>, union: seq<Column>) {
    forall m | m in maps :: |m.toPhysical| == |union|
  }

  function UnionRows(storage: Storage, maps: seq<ColumnMap>, union: seq<Column>, prefix: string,
                     allow: Option<seq<string>>): Result<seq<Row>>
    requires FitUnion(maps, union)
  {
    if maps == [] then Ok([])
    else
      var m := maps[0];
      if !Scanned(m.tableId, prefix, allow) then UnionRows(storage, maps[1..], union, prefix, allow)
      else if m.tableId !in storage then Err(NotFound)
      else if storage[m.tableId].scanFails then Err(Internal)
      else match UnionRows(storage, maps[1..], union, prefix, allow)
           case Err(code) => Err(code)
           case Ok(tail) => Ok(TableRows(storage[m.tableId].rows, m, union, TableSuffixFor(m.tableId, prefix)) + tail)
  }

  /** Drains one table's iterator into the result. */
  method ScanTable(table: Table, m: ColumnMap, union: seq<Column>, suffix: string) returns (r: Result<seq<Row>>)
    requires |union| == |m.toPhysical|
    ensures r == if table.scanFails then Err(Internal) else Ok(TableRows(table.rows, m, union, suffix))
  {
    var rows: seq<Row> := [];
    var i := 0;
    while i < |table.rows|
      invariant 0 <= i <= |table.rows| && |rows| == i
      invariant forall k | 0 <= k < i :: rows[k] == UnionRow(table.rows[k], m, union, suffix)
    {
      var row := BuildUnionRow(table.rows[i], m, union, suffix);
      rows := rows + [row];
      i := i + 1;
    }
    if table.scanFails { return Err(Internal); }
    assert rows == TableRows(table.rows, m, union, suffix);
    r := Ok(rows);
  }

  /** The remaining tables' outcome completes what has been collected so far. */
  ghost predicate Completes(done: seq<Row>, tail: Result<seq<Row>>, whole: Result<seq<Row>>) {
    match tail
    case Err(code) => whole == Err(code)
    case Ok(rows) => whole == Ok(done + rows)
  }

  lemma CompletesStep(done: seq<Row>, here: seq<Row>, tail: Result<seq<Row>>, whole: Result<seq<Row>>)
    requires Completes(done, match tail case Err(code) => Err(code) case Ok(rows) => Ok(here + rows), whole)
    ensures Completes(done + here, tail, whole)
  {
    if tail.Ok? { assert done + (here + tail.value) == (done + here) + tail.value; }
  }

  method CollectUnionRows(storage: Storage, maps: seq<ColumnMap>, union: seq<Column>, prefix: string,
                          allow: Option<seq<string>>) returns (r: Result<seq<Row>>)
    requires FitUnion(maps, union)
    ensures r == UnionRows(storage, maps, union, prefix, allow)
  {
    var rows: seq<Row> := [];
    ghost var whole := UnionRows(storage, maps, union, prefix, allow);
    var t := 0;
    assert maps[0..] == maps;
    assert whole.Ok? ==> [] + whole.value == whole.value;
    while t < |maps|
      invariant 0 <= t <= |maps|
      invariant Completes(rows, UnionRows(storage, maps[t..], union, prefix, allow), whole)
    {
      var m := maps[t];
      assert maps[t..][1..] == maps[t + 1..];
      var suffix := TableSuffixFor(m.tableId, prefix);
      if allow.None? || SuffixMatches(suffix, allow.value) {
        if m.tableId !in storage { return Err(NotFound); }
        var scanned := ScanTable(storage[m.tableId], m, union, suffix);
        if scanned.Err? { return scanned; }
        CompletesStep(rows, scanned.value, UnionRows(storage, maps[t + 1..], union, prefix, allow), whole);
        rows := rows + scanned.value;
      }
      t := t + 1;
    }
    assert maps[t..] == [] && rows + [] == rows;
    r := Ok(rows);
  }

  // ----- Pruning preserves meaning -----

  /** Columns and functions other than `_TABLE_SUFFIX`, as each union row evaluates them. */
  type Env = Row -> (Expr -> Value)

  ghost predicate KeepsRow(e: Expr, row: Row, env: Env)
    requires row != [] && row[|row| - 1].Str?
  {
    Keeps(e, row[|row| - 1].s, env(row))
  }

  /** Every row ends in a string: its `_TABLE_SUFFIX` cell. */
  predicate Suffixed(rows: seq<Row>) {
    forall i | 0 <= i < |rows| :: rows[i] != [] && rows[i][|rows[i]| - 1].Str?
  }

  /** The rows a WHERE clause lets through, in order. */
  ghost function Where(rows: seq<Row>, e: Expr, env: Env): seq<Row>
    requires Suffixed(rows)
  {
    if rows == [] then []
    else (if KeepsRow(e, rows[0], env) then [rows[0]] else []) + Where(rows[1..], e, env)
  }

  lemma RowsAssoc(a: seq<Row>, b: seq<Row>, c: seq<Row>)
    ensures a + (b + c) == (a + b) + c
  {
  }

  lemma WhereStep(rows: seq<Row>, row: Row, rest: seq<Row>, keep: bool, e: Expr, env: Env)
    requires Suffixed(rows) && rows != [] && rows[0] == row && rows[1..] == rest && keep == KeepsRow(e, row, env)
    ensures Where(rows, e, env) == (if keep then [row] else []) + Where(rest, e, env)
  {
  }

  lemma {:induction false} WhereConcat(a: seq<Row>, b: seq<Row>, e: Expr, env: Env)
    requires Suffixed(a) && Suffixed(b)
    ensures Suffixed(a + b) && Where(a + b, e, env) == Where(a, e, env) + Where(b, e, env)
  {
    if a == [] {
      assert a + b == b;
    } else {
      var keep := KeepsRow(e, a[0], env);
      assert (a + b)[0] == a[0] && (a + b)[1..] == a[1..] + b;
      WhereConcat(a[1..], b, e, env);
      WhereStep(a, a[0], a[1..], keep, e, env);
      WhereStep(a + b, a[0], a[1..] + b, keep, e, env);
      RowsAssoc(if keep then [a[0]] else [], Where(a[1..], e, env), Where(b, e, env));
    }
  }

  lemma {:induction false} WhereEmpty(rows: seq<Row>, e: Expr, env: Env)
    requires Suffixed(rows)
    ensures Where(rows, e, env) == [] <==> forall row | row in rows :: !KeepsRow(e, row, env)
  {
    if rows != [] {
      WhereEmpty(rows[1..], e, env);
      assert rows == [rows[0]] + rows[1..];
    }
  }

  predicate EndsInSuffix(union: seq<Column>) {
    union != [] && union[|union| - 1].name == TABLE_SUFFIX
  }

  lemma TableRowsSuffixed(rows: seq<Row>, m: ColumnMap, union: seq<Column>, suffix: string)
    requires |union| == |m.toPhysical| && EndsInSuffix(union)
    ensures Suffixed(TableRows(rows, m, union, suffix))
    ensures forall row | row in TableRows(rows, m, union, suffix) :: row != [] && row[|row| - 1] == Str(suffix)
  {
  }

  lemma {:induction false} UnionRowsSuffixed(storage: Storage, maps: seq<ColumnMap>, union: seq<Column>, prefix: string,
                                             allow: Option<seq<string>>)
    requires FitUnion(maps, union) && EndsInSuffix(union)
    requires UnionRows(storage, maps, union, prefix, allow).Ok?
    ensures Suffixed(UnionRows(storage, maps, union, prefix, allow).value)
  {
    if maps != [] {
      UnionRowsSuffixed(storage, maps[1..], union, prefix, allow);
      var m := maps[0];
      if m.tableId in storage {
        TableRowsSuffixed(storage[m.tableId].rows, m, union, TableSuffixFor(m.tableId, prefix));
      }
    }
  }

  /** The rows whose suffix the list lets through, in order. */
  function Listed(rows: seq<Row>, allow: seq<string>): seq<Row>
    requires Suffixed(rows)
  {
    if rows == [] then []
    else (if SuffixMatches(rows[0][|rows[0]| - 1].s, allow) then [rows[0]] else []) + Listed(rows[1..], allow)
  }

  lemma ListedCons(row: Row, rest: seq<Row>, allow: seq<string>)
    requires row != [] && row[|row| - 1].Str? && Suffixed(rest)
    ensures Suffixed([row] + rest)
    ensures Listed([row] + rest, allow) ==
            (if SuffixMatches(row[|row| - 1].s, allow) then [row] else []) + Listed(rest, allow)
  {
    assert ([row] + rest)[1..] == rest;
  }

  lemma {:induction false} ListedConcat(a: seq<Row>, b: seq<Row>, allow: seq<string>)
    requires Suffixed(a) && Suffixed(b)
    ensures Suffixed(a + b) && Listed(a + b, allow) == Listed(a, allow) + Listed(b, allow)
  {
    if a == [] {
      assert a + b == b;
    } else {
      ListedConcat(a[1..], b, allow);
      ListedCons(a[0], a[1..] + b, allow);
      assert a + b == [a[0]] + (a[1..] + b);
    }
  }

  lemma {:induction false} ListedTable(rows: seq<Row>, suffix: string, allow: seq<string>)
    requires forall i | 0 <= i < |rows| :: rows[i] != [] && rows[i][|rows[i]| - 1] == Str(suffix)
    ensures Suffixed(rows) && Listed(rows, allow) == if SuffixMatches(suffix, allow) then rows else []
  {
    if rows != [] {
      ListedTable(rows[1..], suffix, allow);
      ListedCons(rows[0], rows[1..], allow);
      assert rows == [rows[0]] + rows[1..];
    }
  }

  /** A scan under a list yields exactly the rows of the full scan whose suffix the list lets through. */
  lemma {:induction false} PrunedScanIsListed(storage: Storage, maps: seq<ColumnMap>, union: seq<Column>,
                                              prefix: string, allow: seq<string>)
    requires FitUnion(maps, union) && EndsInSuffix(union) && UnionRows(storage, maps, union, prefix, None).Ok?
    ensures var full := UnionRows(storage, maps, union, prefix, None).value;
            Suffixed(full) && UnionRows(storage, maps, union, prefix, Some(allow)) == Ok(Listed(full, allow))
  {
    if maps != [] {
      var m := maps[0];
      var suffix := TableSuffixFor(m.tableId, prefix);
      var here := TableRows(storage[m.tableId].rows, m, union, suffix);
      var tail := UnionRows(storage, maps[1..], union, prefix, None).value;
      PrunedScanIsListed(storage, maps[1..], union, prefix, allow);
      TableRowsSuffixed(storage[m.tableId].rows, m, union, suffix);
      ListedTable(here, suffix, allow);
      ListedConcat(here, tail, allow);
      assert [] + Listed(tail, allow) == Listed(tail, allow);
    }
  }

  /** It fails exactly when a table the list lets through is missing or fails. */
  lemma {:induction false} ScanFailsIff(storage: Storage, maps: seq<ColumnMap>, union: seq<Column>,
                                        prefix: string, allow: Option<seq<string>>)
    requires FitUnion(maps, union)
    ensures UnionRows(storage, maps, union, prefix, allow).Err? <==>
            exists m | m in maps :: Fails(storage, m.tableId, prefix, allow)
  {
    if maps != [] {
      ScanFailsIff(storage, maps[1..], union, prefix, allow);
      assert maps == [maps[0]] + maps[1..];
    }
  }

  predicate Fails(storage: Storage, id: string, prefix: string, allow: Option<seq<string>>) {
    && (allow.Some? ==> SuffixMatches(TableSuffixFor(id, prefix), allow.value))
    && (id !in storage || storage[id].scanFails)
  }

  /**
   A condition on the filter and one table suffix alone: no list is extracted, or the suffix is a bound
   of every `$between` conjunct, or the list came down to two strings around it.
   */
  predicate PruneSafe(e: Expr, s: string) {
    match AllowList(e)
    case None => true
    case Some(allow) => AtBounds(e, s) || (|allow| == 2 && Leq(allow[0], s) && Leq(s, allow[1]))
  }

  /** Every matched table that holds a kept row has a suffix the extracted list cannot prune away. */
  ghost predicate SafeTables(storage: Storage, maps: seq<ColumnMap>, union: seq<Column>, prefix: string, e: Expr,
                             env: Env)
    requires FitUnion(maps, union) && EndsInSuffix(union)
  {
    forall m | m in maps && m.tableId in storage ::
      var s := TableSuffixFor(m.tableId, prefix);
      HasKept(storage[m.tableId].rows, m, union, s, e, env) ==> PruneSafe(e, s)
  }

  ghost predicate HasKept(rows: seq<Row>, m: ColumnMap, union: seq<Column>, s: string, e: Expr, env: Env)
    requires |union| == |m.toPhysical| && EndsInSuffix(union)
  {
    TableRowsSuffixed(rows, m, union, s);
    exists row :: row in TableRows(rows, m, union, s) && KeepsRow(e, row, env)
  }

  /** A table with a kept row is scanned under the extracted list exactly when it is prune-safe. */
  lemma KeptTableScannedIff(rows: seq<Row>, m: ColumnMap, union: seq<Column>, prefix: string, e: Expr, env: Env)
    requires |union| == |m.toPhysical| && EndsInSuffix(union)
    requires HasKept(rows, m, union, TableSuffixFor(m.tableId, prefix), e, env)
    ensures Scanned(m.tableId, prefix, AllowList(e)) <==> PruneSafe(e, TableSuffixFor(m.tableId, prefix))
  {
    var s := TableSuffixFor(m.tableId, prefix);
    TableRowsSuffixed(rows, m, union, s);
    var row :| row in TableRows(rows, m, union, s) && KeepsRow(e, row, env);
    if AllowList(e).Some? { KeptSuffixScannedIff(e, s, env(row)); }
  }

  /** Every matched table that holds a row the filter keeps is scanned under the list. */
  ghost predicate KeptTablesScanned(storage: Storage, maps: seq<ColumnMap>, union: seq<Column>, prefix: string,
                                    allow: Option<seq<string>>, e: Expr, env: Env)
    requires FitUnion(maps, union) && EndsInSuffix(union)
  {
    forall m | m in maps && m.tableId in storage ::
      HasKept(storage[m.tableId].rows, m, union, TableSuffixFor(m.tableId, prefix), e, env) ==>
      Scanned(m.tableId, prefix, allow)
  }

  lemma KeptTablesSplit(storage: Storage, maps: seq<ColumnMap>, union: seq<Column>, prefix: string,
                        allow: Option<seq<string>>, e: Expr, env: Env)
    requires FitUnion(maps, union) && EndsInSuffix(union) && maps != [] && maps[0].tableId in storage
    ensures var m := maps[0];
            KeptTablesScanned(storage, maps, union, prefix, allow, e, env) <==>
            && (HasKept(storage[m.tableId].rows, m, union, TableSuffixFor(m.tableId, prefix), e, env) ==>
                Scanned(m.tableId, prefix, allow))
            && KeptTablesScanned(storage, maps[1..], union, prefix, allow, e, env)
  {
    assert maps == [maps[0]] + maps[1..];
  }

  /** Under any list whatever, a filter sees the same rows as on the full union iff no table it needs is skipped. */
  lemma {:induction false} SkippingPreservesIff(storage: Storage, maps: seq<ColumnMap>, union: seq<Column>,
                                                prefix: string, allow: Option<seq<string>>, e: Expr, env: Env)
    requires FitUnion(maps, union) && EndsInSuffix(union)
    requires UnionRows(storage, maps, union, prefix, None).Ok?
    ensures UnionRows(storage, maps, union, prefix, allow).Ok?
    ensures Suffixed(UnionRows(storage, maps, union, prefix, None).value)
    ensures Suffixed(UnionRows(storage, maps, union, prefix, allow).value)
    ensures var full := Where(UnionRows(storage, maps, union, prefix, None).value, e, env);
            var seen := Where(UnionRows(storage, maps, union, prefix, allow).value, e, env);
            |seen| <= |full| && (seen == full <==> |seen| == |full|) &&
            (seen == full <==> KeptTablesScanned(storage, maps, union, prefix, allow, e, env))
  {
    UnionRowsSuffixed(storage, maps, union, prefix, None);
    if maps != [] {
      var m := maps[0];
      var s := TableSuffixFor(m.tableId, prefix);
      SkippingPreservesIff(storage, maps[1..], union, prefix, allow, e, env);
      UnionRowsSuffixed(storage, maps, union, prefix, allow);
      KeptTablesSplit(storage, maps, union, prefix, allow, e, env);
      var here := TableRows(storage[m.tableId].rows, m, union, s);
      var full, seen := UnionRows(storage, maps[1..], union, prefix, None).value,
                        UnionRows(storage, maps[1..], union, prefix, allow).value;
      TableRowsSuffixed(storage[m.tableId].rows, m, union, s);
      WhereConcat(here, full, e, env);
      WhereConcat(here, seen, e, env);
      WhereEmpty(here, e, env);
      OneMoreTable(Where(here, e, env), Scanned(m.tableId, prefix, allow), Where(full, e, env), Where(seen, e, env));
    }
  }

  /** What a scanned or skipped table with these kept rows does to the comparison of the rest. */
  lemma OneMoreTable(kept: seq<Row>, scanned: bool, full: seq<Row>, seen: seq<Row>)
    requires |seen| <= |full| && (seen == full <==> |seen| == |full|)
    ensures var seen' := if scanned then kept + seen else seen;
            |seen'| <= |kept + full| && (seen' == kept + full <==> |seen'| == |kept + full|) &&
            (seen' == kept + full <==> (kept != [] ==> scanned) && seen == full)
  {
    if scanned {
      assert (kept + seen)[|kept|..] == seen && (kept + full)[|kept|..] == full;
    } else {
      assert kept == [] ==> kept + full == full;
    }
  }

  /**
   Filtering the pruned union yields the same row sequence as filtering the full union, for every filter
   tree and every set of tables, if and only if each table holding a kept row is prune-safe.
   */
  lemma PruningPreservesIff(storage: Storage, maps: seq<ColumnMap>, union: seq<Column>, prefix: string, e: Expr,
                            env: Env)
    requires FitUnion(maps, union) && EndsInSuffix(union)
    requires UnionRows(storage, maps, union, prefix, None).Ok?
    ensures UnionRows(storage, maps, union, prefix, AllowList(e)).Ok?
    ensures Suffixed(UnionRows(storage, maps, union, prefix, None).value)
    ensures Suffixed(UnionRows(storage, maps, union, prefix, AllowList(e)).value)
    ensures Where(UnionRows(storage, maps, union, prefix, AllowList(e)).value, e, env)
            == Where(UnionRows(storage, maps, union, prefix, None).value, e, env)
            <==> SafeTables(storage, maps, union, prefix, e, env)
  {
    SkippingPreservesIff(storage, maps, union, prefix, AllowList(e), e, env);
    forall m | m in maps && m.tableId in storage
                && HasKept(storage[m.tableId].rows, m, union, TableSuffixFor(m.tableId, prefix), e, env)
      ensures Scanned(m.tableId, prefix, AllowList(e)) <==> PruneSafe(e, TableSuffixFor(m.tableId, prefix))
    {
      KeptTableScannedIff(storage[m.tableId].rows, m, union, prefix, e, env);
    }
  }

  /** The filters the pruner is meant for lose nothing, whatever the tables hold. */
  lemma PruningPreservesSafeShapes(storage: Storage, maps: seq<ColumnMap>, union: seq<Column>, prefix: string,
                                   e: Expr, env: Env)
    requires FitUnion(maps, union) && EndsInSuffix(union) && (SafeShape(e) || AllowList(e).None?)
    requires UnionRows(storage, maps, union, prefix, None).Ok?
    ensures UnionRows(storage, maps, union, prefix, AllowList(e)).Ok?
    ensures Suffixed(UnionRows(storage, maps, union, prefix, None).value)
    ensures Suffixed(UnionRows(storage, maps, union, prefix, AllowList(e)).value)
    ensures Where(UnionRows(storage, maps, union, prefix, AllowList(e)).value, e, env)
         == Where(UnionRows(storage, maps, union, prefix, None).value, e, env)
  {
    forall m | m in maps && m.tableId in storage && AllowList(e).Some?
                && HasKept(storage[m.tableId].rows, m, union, TableSuffixFor(m.tableId, prefix), e, env)
      ensures PruneSafe(e, TableSuffixFor(m.tableId, prefix))
    {
      var s := TableSuffixFor(m.tableId, prefix);
      TableRowsSuffixed(storage[m.tableId].rows, m, union, s);
      var row :| row in TableRows(storage[m.tableId].rows, m, union, s) && KeepsRow(e, row, env);
      SafeShapeScansKept(e, s, env(row));
      KeptSuffixScannedIff(e, s, env(row));
    }
    PruningPreservesIff(storage, maps, union, prefix, e, env);
  }
}
