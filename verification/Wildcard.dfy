/** Wildcard tables: matching of names and unification of schemas (backend/catalog/wildcard_table_util.cc). */
module Wildcard {
  import opened Basics
  import opened Schema
  import opened SuffixFilter

  type Row = seq<Value>

  /** A stored table: its schema, the rows a scan yields, and whether that scan then fails. */
  datatype Table = Table(schema: seq<Column>, rows: seq<Row>, scanFails: bool)

  /** The tables of one dataset by table id. */
  type Storage = map<string, Table>

  // ----- Names -----

  predicate IsWildcardTableId(id: string) {
    id != "" && id[|id| - 1] == '*'
  }

  function WildcardTablePrefix(id: string): string {
    if IsWildcardTableId(id) then id[..|id| - 1] else id
  }

  predicate TableMatchesWildcard(id: string, wildcard: string) {
    IsWildcardTableId(wildcard) && WildcardTablePrefix(wildcard) <= id
  }

  function TableSuffixFor(id: string, prefix: string): string {
    if prefix <= id then id[|prefix|..] else id
  }

  /** `p*` matches the ids that start with `p`, and a name without the star matches nothing. */
  lemma WildcardMatchesIff(id: string, p: string, name: string)
    ensures TableMatchesWildcard(id, p + "*") <==> p <= id
    ensures p <= id ==> p + TableSuffixFor(id, WildcardTablePrefix(p + "*")) == id
    ensures name == "" || name[|name| - 1] != '*' ==> !TableMatchesWildcard(id, name)
  {
    assert (p + "*")[..|p|] == p;
  }

  // ----- Compatibility of two columns -----

  predicate Compatible(a: Column, b: Column) {
    a.typ == b.typ && a.mode == b.mode &&
    (a.typ.Struct? ==>
      |a.fields| == |b.fields| && forall i | 0 <= i < |a.fields| :: Compatible(a.fields[i], b.fields[i]))
  }

  lemma {:induction false} CompatibleReflexive(a: Column)
    ensures Compatible(a, a)
  {
    forall i | 0 <= i < |a.fields| { CompatibleReflexive(a.fields[i]); }
  }

  lemma {:induction false} CompatibleSymmetric(a: Column, b: Column)
    requires Compatible(a, b)
    ensures Compatible(b, a)
  {
    if a.typ.Struct? {
      forall i | 0 <= i < |a.fields| { CompatibleSymmetric(a.fields[i], b.fields[i]); }
    }
  }

  lemma {:induction false} CompatibleTransitive(a: Column, b: Column, c: Column)
    requires Compatible(a, b) && Compatible(b, c)
    ensures Compatible(a, c)
  {
    if a.typ.Struct? {
      forall i | 0 <= i < |a.fields| { CompatibleTransitive(a.fields[i], b.fields[i], c.fields[i]); }
    }
  }

  /** What two columns must share: type, mode and, in a struct, the same of its fields in order. */
  datatype Skeleton = Skeleton(typ: ColumnType, mode: ColumnMode, parts: seq<Skeleton>)

  function SkeletonOf(c: Column): Skeleton
    decreases c, 1
  {
    Skeleton(c.typ, c.mode, if c.typ.Struct? then SkeletonsOf(c.fields) else [])
  }

  function SkeletonsOf(cs: seq<Column>): (parts: seq<Skeleton>)
    ensures |parts| == |cs|
    decreases cs, 0
  {
    if cs == [] then [] else [SkeletonOf(cs[0])] + SkeletonsOf(cs[1..])
  }

  /** Columns are compatible exactly when nothing but names, descriptions and raw types tells them apart. */
  lemma {:induction false} CompatibleIff(a: Column, b: Column)
    ensures Compatible(a, b) <==> SkeletonOf(a) == SkeletonOf(b)
    decreases a, 1
  {
    if a.typ.Struct? && b.typ.Struct? { AllCompatibleIff(a.fields, b.fields); }
  }

  lemma {:induction false} AllCompatibleIff(cs: seq<Column>, ds: seq<Column>)
    ensures |cs| == |ds| && (forall i | 0 <= i < |cs| :: Compatible(cs[i], ds[i])) <==>
            SkeletonsOf(cs) == SkeletonsOf(ds)
    decreases cs, 0
  {
    if cs != [] && |cs| == |ds| {
      CompatibleIff(cs[0], ds[0]);
      AllCompatibleIff(cs[1..], ds[1..]);
      HeadAndTail(SkeletonOf(cs[0]), SkeletonsOf(cs[1..]), SkeletonOf(ds[0]), SkeletonsOf(ds[1..]));
      forall i | 0 < i < |cs| ensures Compatible(cs[i], ds[i]) <==> Compatible(cs[1..][i - 1], ds[1..][i - 1]) {
        assert cs[i] == cs[1..][i - 1] && ds[i] == ds[1..][i - 1];
      }
      assert forall i | 0 <= i < |cs| - 1 :: cs[1..][i] == cs[i + 1] && ds[1..][i] == ds[i + 1];
    }
  }

  lemma HeadAndTail<T>(x: T, xs: seq<T>, y: T, ys: seq<T>)
    ensures [x] + xs == [y] + ys <==> x == y && xs == ys
  {
    assert ([x] + xs)[0] == x && ([x] + xs)[1..] == xs && ([y] + ys)[0] == y && ([y] + ys)[1..] == ys;
  }

  // ----- Unification -----

  const SUFFIX_COLUMN := Column(TABLE_SUFFIX, String, Required, "", "", [])

  predicate DistinctNames(cols: seq<Column>) {
    forall i, j | 0 <= i < j < |cols| :: cols[i].name != cols[j].name
  }

  /** Same-named columns agree pairwise, wherever they come from. */
  predicate PairwiseCompatible(cols: seq<Column>) {
    forall i, j | 0 <= i < j < |cols| && cols[i].name == cols[j].name :: Compatible(cols[i], cols[j])
  }

  predicate Fits(c: Column, skeletons: map<string, Skeleton>) {
    c.name in skeletons && skeletons[c.name] == SkeletonOf(c)
  }

  predicate AllFit(cols: seq<Column>, skeletons: map<string, Skeleton>) {
    forall c | c in cols :: Fits(c, skeletons)
  }

  /** Columns unify exactly when every name has one skeleton. */
  lemma PairwiseCompatibleIff(cols: seq<Column>)
    ensures PairwiseCompatible(cols) <==>
            exists skeletons: map<string, Skeleton> :: AllFit(cols, skeletons)
  {
    if PairwiseCompatible(cols) {
      var _ := SkeletonByName(cols);
    }
    if skeletons: map<string, Skeleton> :| AllFit(cols, skeletons) {
      forall i, j | 0 <= i < j < |cols| && cols[i].name == cols[j].name ensures Compatible(cols[i], cols[j]) {
        assert Fits(cols[i], skeletons) && Fits(cols[j], skeletons);
        CompatibleIff(cols[i], cols[j]);
      }
    }
  }

  lemma {:induction false} SkeletonByName(cols: seq<Column>) returns (skeletons: map<string, Skeleton>)
    requires PairwiseCompatible(cols)
    ensures AllFit(cols, skeletons)
    ensures forall n | n in skeletons :: HasName(cols, n)
  {
    skeletons := map[];
    if cols != [] {
      var front, last := cols[..|cols| - 1], cols[|cols| - 1];
      var before := SkeletonByName(front);
      skeletons := before[last.name := SkeletonOf(last)];
      forall c | c in cols ensures Fits(c, skeletons) {
        var i :| 0 <= i < |cols| && cols[i] == c;
        if i < |front| {
          assert front[i] == c && Fits(c, before);
          if c.name == last.name { CompatibleIff(cols[i], cols[|cols| - 1]); }
        }
      }
      assert HasName(cols, last.name);
      assert forall i | 0 <= i < |front| :: front[i] == cols[i];
    }
  }

  /** The columns of all matched tables, table after table. */
  function AllColumns(storage: Storage, matched: seq<string>): seq<Column>
    requires forall id | id in matched :: id in storage
  {
    if matched == [] then [] else storage[matched[0]].schema + AllColumns(storage, matched[1..])
  }

  /**
   `u` is a union schema of `all`: the newest table's columns in order, then every other name once,
   each with the definition first seen in `all`, then the suffix column.
   */
  ghost predicate IsUnion(all: seq<Column>, newest: seq<Column>, u: seq<Column>) {
    && |u| > |newest|
    && u[|u| - 1] == SUFFIX_COLUMN
    && (forall i | 0 <= i < |newest| :: u[i].name == newest[i].name)
    && (forall i | 0 <= i < |u| - 1 :: HasName(all, u[i].name) && u[i] == all[FirstIndex(all, u[i].name)])
    && (forall i, j | 0 <= i < j < |u| - 1 && |newest| <= j :: u[i].name != u[j].name)
    && (forall i | 0 <= i < |all| :: HasName(u[..|u| - 1], all[i].name))
  }

  function FirstIndex(cols: seq<Column>, name: string): (k: nat)
    requires HasName(cols, name)
    ensures k < |cols| && cols[k].name == name && forall j | 0 <= j < k :: cols[j].name != name
  {
    IndexOfFirst(cols, name);
    IndexOf(cols, name)
  }

  lemma {:induction false} AllColumnsPrefix(storage: Storage, matched: seq<string>, n: nat)
    requires n < |matched| && forall id | id in matched :: id in storage
    ensures AllColumns(storage, matched[..n + 1]) == AllColumns(storage, matched[..n]) + storage[matched[n]].schema
    ensures AllColumns(storage, matched[..n + 1]) <= AllColumns(storage, matched)
  {
    if n == 0 {
      assert matched[..1][1..] == [] && matched[..0] == [];
    } else {
      AllColumnsPrefix(storage, matched[1..], n - 1);
      assert matched[..n + 1][1..] == matched[1..][..n] && matched[..n][1..] == matched[1..][..n - 1];
      ColumnsAssoc(storage[matched[0]].schema, AllColumns(storage, matched[1..][..n - 1]), storage[matched[n]].schema);
    }
  }

  lemma ColumnsAssoc(a: seq<Column>, b: seq<Column>, c: seq<Column>)
    ensures a + (b + c) == (a + b) + c
  {
  }

  /** The first-seen definitions recorded for a column prefix. */
  ghost predicate Records(byName: map<string, Column>, cols: seq<Column>) {
    && (forall n | n in byName :: HasName(cols, n) && byName[n] == cols[FirstIndex(cols, n)])
    && (forall i | 0 <= i < |cols| :: cols[i].name in byName)
  }

  lemma FirstIndexExtends(cols: seq<Column>, more: seq<Column>, name: string)
    requires HasName(cols, name)
    ensures HasName(cols + more, name) && FirstIndex(cols + more, name) == FirstIndex(cols, name)
  {
    var k := FirstIndex(cols, name);
    assert (cols + more)[k].name == name;
    assert forall j | 0 <= j < |cols| :: (cols + more)[j] == cols[j];
  }

  lemma NewNameFirst(cols: seq<Column>, col: Column)
    requires forall i | 0 <= i < |cols| :: cols[i].name != col.name
    ensures HasName(cols + [col], col.name) && FirstIndex(cols + [col], col.name) == |cols|
  {
    var ext := cols + [col];
    assert ext[|cols|] == col && forall j | 0 <= j < |cols| :: ext[j] == cols[j];
  }

  lemma RecordsNew(byName: map<string, Column>, cols: seq<Column>, col: Column)
    requires Records(byName, cols) && col.name !in byName
    ensures Records(byName[col.name := col], cols + [col])
  {
    var ext := cols + [col];
    NewNameFirst(cols, col);
    forall n | n in byName ensures HasName(ext, n) && byName[n] == ext[FirstIndex(ext, n)] {
      FirstIndexExtends(cols, [col], n);
    }
    forall i | 0 <= i < |ext| ensures ext[i].name in byName[col.name := col] {
      if i < |cols| { assert ext[i] == cols[i]; }
    }
  }

  lemma RecordsSeen(byName: map<string, Column>, cols: seq<Column>, col: Column)
    requires Records(byName, cols) && col.name in byName
    ensures Records(byName, cols + [col])
  {
    var ext := cols + [col];
    forall n | n in byName ensures HasName(ext, n) && byName[n] == ext[FirstIndex(ext, n)] {
      FirstIndexExtends(cols, [col], n);
    }
  }

  /** Comparing a new column with the first-seen one alone is comparing it with all earlier ones. */
  lemma FirstSeenDecides(cols: seq<Column>, col: Column)
    requires PairwiseCompatible(cols) && HasName(cols, col.name)
    ensures PairwiseCompatible(cols + [col]) <==> Compatible(cols[FirstIndex(cols, col.name)], col)
  {
    var ext := cols + [col];
    var f := FirstIndex(cols, col.name);
    assert ext[f] == cols[f] && ext[|cols|] == col;
    if Compatible(cols[f], col) {
      forall i, j | 0 <= i < j < |ext| && ext[i].name == ext[j].name ensures Compatible(ext[i], ext[j]) {
        if j == |cols| && i != f {
          CompatibleSymmetric(cols[f], cols[i]);
          CompatibleTransitive(cols[i], cols[f], col);
        }
      }
    }
  }

  lemma PairwisePrefix(cols: seq<Column>, all: seq<Column>)
    requires cols <= all && PairwiseCompatible(all)
    ensures PairwiseCompatible(cols)
  {
    assert forall i | 0 <= i < |cols| :: cols[i] == all[i];
  }

  /** One table's pass of the gathering loop; `before` is everything seen in earlier tables. */
  method GatherTable(byName: map<string, Column>, schema: seq<Column>, ghost before: seq<Column>)
    returns (r: Result<map<string, Column>>)
    requires Records(byName, before) && PairwiseCompatible(before)
    ensures r.Ok? <==> PairwiseCompatible(before + schema)
    ensures r.Ok? ==> Records(r.value, before + schema)
    ensures r.Err? ==> r.code == InvalidArgument
  {
    var found := byName;
    ghost var seen := before;
    var c := 0;
    while c < |schema|
      invariant 0 <= c <= |schema|
      invariant seen == before + schema[..c]
      invariant PairwiseCompatible(seen) && Records(found, seen)
    {
      var col := schema[c];
      SeenPrefix(before, schema, c);
      GatherStep(found, seen, col);
      seen := seen + [col];
      if col.name !in found {
        found := found[col.name := col];
      } else if !Compatible(found[col.name], col) {
        if PairwiseCompatible(before + schema) { PairwisePrefix(seen, before + schema); }
        return Err(InvalidArgument);
      }
      c := c + 1;
    }
    assert schema[..c] == schema;
    r := Ok(found);
  }

  lemma GatherStep(found: map<string, Column>, seen: seq<Column>, col: Column)
    requires Records(found, seen) && PairwiseCompatible(seen)
    ensures col.name !in found ==>
              PairwiseCompatible(seen + [col]) && Records(found[col.name := col], seen + [col])
    ensures col.name in found ==>
              (Compatible(found[col.name], col) <==> PairwiseCompatible(seen + [col])) && Records(found, seen + [col])
  {
    if col.name !in found {
      NewNameCompatible(seen, col);
      RecordsNew(found, seen, col);
    } else {
      FirstSeenDecides(seen, col);
      RecordsSeen(found, seen, col);
    }
  }

  lemma SeenPrefix(before: seq<Column>, schema: seq<Column>, c: nat)
    requires c < |schema|
    ensures before + schema[..c + 1] == before + schema[..c] + [schema[c]]
    ensures before + schema[..c] + [schema[c]] <= before + schema
  {
  }

  lemma NewNameCompatible(cols: seq<Column>, col: Column)
    requires PairwiseCompatible(cols) && forall i | 0 <= i < |cols| :: cols[i].name != col.name
    ensures PairwiseCompatible(cols + [col])
  {
  }

  /**
   The first loop of the unification: gather first-seen definitions, failing on the first missing
   table or incompatible column.
   */
  method GatherColumns(storage: Storage, matched: seq<string>) returns (r: Result<map<string, Column>>)
    ensures r.Ok? <==> (forall id | id in matched :: id in storage) && PairwiseCompatible(AllColumns(storage, matched))
    ensures r.Ok? ==> Records(r.value, AllColumns(storage, matched))
    ensures r == Err(NotFound) <==> MissingFirst(storage, matched)
    ensures r.Err? ==> r.code in {NotFound, InvalidArgument}
  {
    var byName: map<string, Column> := map[];
    var t := 0;
    while t < |matched|
      invariant 0 <= t <= |matched|
      invariant forall k | 0 <= k < t :: matched[k] in storage
      invariant PairwiseCompatible(AllColumns(storage, matched[..t]))
      invariant Records(byName, AllColumns(storage, matched[..t]))
    {
      if matched[t] !in storage {
        assert MissingAt(storage, matched, t);
        return Err(NotFound);
      }
      AllColumnsStep(storage, matched, t);
      var gathered := GatherTable(byName, storage[matched[t]].schema, AllColumns(storage, matched[..t]));
      if gathered.Err? {
        IncompatibleSomewhere(storage, matched, t);
        NotMissingFirst(storage, matched, t);
        return gathered;
      }
      byName := gathered.value;
      t := t + 1;
    }
    assert matched[..t] == matched;
    r := Ok(byName);
  }

  /** Table `t` is missing, and the tables before it are there and unify. */
  ghost predicate MissingAt(storage: Storage, matched: seq<string>, t: nat) {
    && t < |matched| && matched[t] !in storage
    && (forall id | id in matched[..t] :: id in storage)
    && PairwiseCompatible(AllColumns(storage, matched[..t]))
  }

  /** The first thing wrong is a table that is not there. */
  ghost predicate MissingFirst(storage: Storage, matched: seq<string>) {
    exists t: nat :: MissingAt(storage, matched, t)
  }

  lemma NotMissingFirst(storage: Storage, matched: seq<string>, t: nat)
    requires t < |matched| && forall k | 0 <= k <= t :: matched[k] in storage
    requires !PairwiseCompatible(AllColumns(storage, matched[..t + 1]))
    ensures !MissingFirst(storage, matched)
  {
    if u: nat :| MissingAt(storage, matched, u) {
      var front := matched[..u];
      AllColumnsPrefix(storage, front, t);
      assert front[..t + 1] == matched[..t + 1];
      PairwisePrefix(AllColumns(storage, matched[..t + 1]), AllColumns(storage, front));
    }
  }

  lemma AllColumnsStep(storage: Storage, matched: seq<string>, t: nat)
    requires t < |matched| && forall k | 0 <= k <= t :: matched[k] in storage
    ensures AllColumns(storage, matched[..t + 1]) == AllColumns(storage, matched[..t]) + storage[matched[t]].schema
  {
    AllColumnsPrefix(storage, matched[..t + 1], t);
    assert matched[..t + 1][..t + 1] == matched[..t + 1] && matched[..t + 1][..t] == matched[..t];
  }

  lemma IncompatibleSomewhere(storage: Storage, matched: seq<string>, t: nat)
    requires t < |matched| && forall k | 0 <= k <= t :: matched[k] in storage
    requires !PairwiseCompatible(AllColumns(storage, matched[..t + 1]))
    ensures (forall id | id in matched :: id in storage) ==> !PairwiseCompatible(AllColumns(storage, matched))
  {
    if (forall id | id in matched :: id in storage) && PairwiseCompatible(AllColumns(storage, matched)) {
      AllColumnsPrefix(storage, matched, t);
      PairwisePrefix(AllColumns(storage, matched[..t + 1]), AllColumns(storage, matched));
    }
  }

  method UnifyWildcardTableSchemas(storage: Storage, matched: seq<string>) returns (r: Result<seq<Column>>)
    ensures r.Ok? <==> matched != [] && (forall id | id in matched :: id in storage)
                       && PairwiseCompatible(AllColumns(storage, matched))
    ensures r.Ok? ==> IsUnion(AllColumns(storage, matched), storage[matched[|matched| - 1]].schema, r.value)
    ensures matched == [] ==> r == Err(InvalidArgument)
    ensures r == Err(NotFound) <==> MissingFirst(storage, matched)
    ensures r.Err? ==> r.code in {NotFound, InvalidArgument}
  {
    if matched == [] { return Err(InvalidArgument); }
    var gathered := GatherColumns(storage, matched);
    if gathered.Err? { return Err(gathered.code); }
    var newest := storage[matched[|matched| - 1]].schema;
    ghost var all := AllColumns(storage, matched);
    TableAmongAll(storage, matched, |matched| - 1);
    var columns := NewestFirst(gathered.value, newest, all);
    columns := AppendOlder(gathered.value, newest, columns);
    UnionAssembled(gathered.value, all, newest, columns);
    r := Ok(columns + [SUFFIX_COLUMN]);
  }

  /** The gathered definitions of the newest table's columns, in its order. */
  method NewestFirst(byName: map<string, Column>, newest: seq<Column>, ghost all: seq<Column>)
    returns (columns: seq<Column>)
    requires Records(byName, all) && forall k | 0 <= k < |newest| :: HasName(all, newest[k].name)
    ensures |columns| == |newest|
    ensures forall k | 0 <= k < |newest| ::
              newest[k].name in byName && columns[k] == byName[newest[k].name] && columns[k].name == newest[k].name
  {
    columns := [];
    var i := 0;
    while i < |newest|
      invariant 0 <= i <= |newest| && |columns| == i
      invariant forall k | 0 <= k < i ::
                  newest[k].name in byName && columns[k] == byName[newest[k].name] && columns[k].name == newest[k].name
    {
      assert newest[i].name in byName by {
        assert all[FirstIndex(all, newest[i].name)].name == newest[i].name;
      }
      columns := columns + [byName[newest[i].name]];
      i := i + 1;
    }
  }

  lemma UnionAssembled(byName: map<string, Column>, all: seq<Column>, newest: seq<Column>, columns: seq<Column>)
    requires Records(byName, all) && |newest| <= |columns|
    requires forall k | 0 <= k < |newest| :: columns[k].name == newest[k].name
    requires forall k | 0 <= k < |columns| :: columns[k].name in byName && columns[k] == byName[columns[k].name]
    requires forall n | n in byName && !HasName(newest, n) :: HasName(columns, n)
    requires forall i, j | 0 <= i < j < |columns| && |newest| <= j :: columns[i].name != columns[j].name
    ensures IsUnion(all, newest, columns + [SUFFIX_COLUMN])
  {
    assert (columns + [SUFFIX_COLUMN])[..|columns|] == columns;
    forall k | 0 <= k < |all| ensures HasName(columns, all[k].name) {
      var name := all[k].name;
      assert name in byName;
      if HasName(newest, name) {
        var j :| 0 <= j < |newest| && newest[j].name == name;
        assert columns[j].name == name;
      }
    }
  }

  /** Appends the gathered columns the newest table lacks, in whatever order the hash map yields them. */
  method AppendOlder(byName: map<string, Column>, newest: seq<Column>, start: seq<Column>)
    returns (columns: seq<Column>)
    requires forall n | n in byName :: byName[n].name == n
    requires |start| == |newest| && forall k | 0 <= k < |newest| :: start[k].name == newest[k].name
    ensures start <= columns
    ensures forall k | |start| <= k < |columns| ::
              columns[k].name in byName && columns[k] == byName[columns[k].name] && !HasName(newest, columns[k].name)
    ensures forall n | n in byName && !HasName(newest, n) :: HasName(columns, n)
    ensures forall i, j | 0 <= i < j < |columns| && |start| <= j :: columns[i].name != columns[j].name
  {
    columns := start;
    var todo := byName.Keys;
    while todo != {}
      invariant todo <= byName.Keys
      invariant start <= columns
      invariant forall k | |start| <= k < |columns| ::
                  && columns[k].name in byName.Keys - todo
                  && columns[k] == byName[columns[k].name]
                  && !HasName(newest, columns[k].name)
      invariant forall n | n in byName.Keys - todo && !HasName(newest, n) :: HasName(columns, n)
      invariant forall i, j | 0 <= i < j < |columns| && |start| <= j :: columns[i].name != columns[j].name
    {
      var n :| n in todo;
      todo := todo - {n};
      if !HasName(newest, n) {
        forall i | 0 <= i < |columns| ensures columns[i].name != n {
          if i < |start| { assert columns[i] == start[i]; }
        }
        var longer := columns + [byName[n]];
        assert longer[|columns|].name == n;
        forall m | HasName(columns, m) ensures HasName(longer, m) {
          var i :| 0 <= i < |columns| && columns[i].name == m;
          assert longer[i].name == m;
        }
        columns := longer;
      }
    }
  }

  lemma TableAmongAll(storage: Storage, matched: seq<string>, t: nat)
    requires t < |matched| && forall id | id in matched :: id in storage
    ensures var schema := storage[matched[t]].schema;
            forall k | 0 <= k < |schema| :: HasName(AllColumns(storage, matched), schema[k].name)
  {
    AllColumnsPrefix(storage, matched, t);
    var schema := storage[matched[t]].schema;
    var all := AllColumns(storage, matched);
    var n := |AllColumns(storage, matched[..t])|;
    forall k | 0 <= k < |schema| ensures HasName(all, schema[k].name) {
      assert all[n + k] == AllColumns(storage, matched[..t + 1])[n + k] == schema[k];
    }
  }

  // ----- Order independence -----

  lemma {:induction false} AllColumnsMember(storage: Storage, matched: seq<string>, c: Column)
    requires forall id | id in matched :: id in storage
    ensures c in AllColumns(storage, matched) <==> exists id :: id in matched && c in storage[id].schema
  {
    if matched != [] {
      AllColumnsMember(storage, matched[1..], c);
      assert matched == [matched[0]] + matched[1..];
    }
  }

  /** Pairwise compatibility speaks about the columns present, not about their order. */
  lemma PairwiseByMembers(cols: seq<Column>)
    ensures PairwiseCompatible(cols) <==>
            forall a, b | a in cols && b in cols && a.name == b.name :: Compatible(a, b)
  {
    if PairwiseCompatible(cols) {
      forall a, b | a in cols && b in cols && a.name == b.name ensures Compatible(a, b) {
        var i :| 0 <= i < |cols| && cols[i] == a;
        var j :| 0 <= j < |cols| && cols[j] == b;
        if i == j { CompatibleReflexive(a); }
        else if j < i { CompatibleSymmetric(b, a); }
      }
    }
  }

  /**
   Whatever order the same tables come in, unification succeeds or fails alike, and the two union
   schemas offer the same column names with compatible definitions.
   */
  lemma UnificationOrderIndependent(storage: Storage, m1: seq<string>, m2: seq<string>,
                                    new1: seq<Column>, new2: seq<Column>, u1: seq<Column>, u2: seq<Column>)
    requires forall id :: id in m1 <==> id in m2
    requires forall id | id in m1 :: id in storage
    ensures PairwiseCompatible(AllColumns(storage, m1)) <==> PairwiseCompatible(AllColumns(storage, m2))
    ensures && PairwiseCompatible(AllColumns(storage, m1))
            && IsUnion(AllColumns(storage, m1), new1, u1) && IsUnion(AllColumns(storage, m2), new2, u2) ==>
              && (forall n :: HasName(u1, n) <==> HasName(u2, n))
              && (forall i, j | 0 <= i < |u1| - 1 && 0 <= j < |u2| - 1 && u1[i].name == u2[j].name ::
                    Compatible(u1[i], u2[j]))
  {
    var all1, all2 := AllColumns(storage, m1), AllColumns(storage, m2);
    forall c ensures c in all1 <==> c in all2 {
      AllColumnsMember(storage, m1, c);
      AllColumnsMember(storage, m2, c);
    }
    PairwiseByMembers(all1);
    PairwiseByMembers(all2);
    if PairwiseCompatible(all1) && IsUnion(all1, new1, u1) && IsUnion(all2, new2, u2) {
      forall n ensures HasName(u1, n) <==> HasName(u2, n) {
        UnionNames(all1, new1, u1, n);
        UnionNames(all2, new2, u2, n);
      }
    }
  }

  /** A union offers exactly the names of the matched tables and the suffix. */
  lemma UnionNames(all: seq<Column>, newest: seq<Column>, u: seq<Column>, n: string)
    requires IsUnion(all, newest, u)
    ensures HasName(u, n) <==> n == TABLE_SUFFIX || exists c :: c in all && c.name == n
  {
    if HasName(u, n) && n != TABLE_SUFFIX {
      var i :| 0 <= i < |u| && u[i].name == n;
      assert all[FirstIndex(all, n)] in all;
    }
    if c :| c in all && c.name == n { UnionOffers(all, newest, u, c); }
    assert u[|u| - 1].name == TABLE_SUFFIX;
  }

  lemma UnionOffers(all: seq<Column>, newest: seq<Column>, u: seq<Column>, c: Column)
    requires IsUnion(all, newest, u) && c in all
    ensures HasName(u, c.name)
  {
    var i :| 0 <= i < |all| && all[i] == c;
    var j :| 0 <= j < |u| - 1 && u[..|u| - 1][j].name == c.name;
    assert u[j].name == c.name;
  }
}
