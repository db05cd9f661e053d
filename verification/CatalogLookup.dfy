/**
 Table name resolution and the per-catalog table cache
 (backend/catalog/googlesql_catalog_find_helpers.cc, googlesql_catalog.cc, googlesql_catalog_wildcard.cc).
 */
module CatalogLookup {
  import opened Basics
  import Wildcard

  const INFORMATION_SCHEMA := "INFORMATION_SCHEMA"

  datatype Triple = Triple(project: string, dataset: string, table: string)

  /** A resolved path names a table, or an INFORMATION_SCHEMA view when `view` is non-empty. */
  datatype Resolved = Resolved(id: Triple, view: string)

  // ----- Paths -----

  /** One segment: dotted forms are split at the first two dots, a bare name uses the default dataset. */
  function ParseSingle(single: string, project: string, defaultDataset: string): Result<Resolved> {
    var k := Position(single, '.');
    if k < |single| then
      var rest := single[k + 1..];
      var m := Position(rest, '.');
      if m < |rest| then Ok(Resolved(Triple(single[..k], rest[..m], rest[m + 1..]), ""))
      else Ok(Resolved(Triple(project, single[..k], rest), ""))
    else if defaultDataset == "" then Err(NotFound)
    else Ok(Resolved(Triple(project, defaultDataset, single), ""))
  }

  function ParseFindTablePath(path: seq<string>, project: string, defaultDataset: string): Result<Resolved> {
    if |path| == 1 then ParseSingle(path[0], project, defaultDataset)
    else if |path| == 2 then
      if path[0] == INFORMATION_SCHEMA then Ok(Resolved(Triple(project, "", ""), path[1]))
      else Ok(Resolved(Triple(project, path[0], path[1]), ""))
    else if |path| == 3 then
      if path[1] == INFORMATION_SCHEMA then Ok(Resolved(Triple(project, path[0], ""), path[2]))
      else Ok(Resolved(Triple(path[0], path[1], path[2]), ""))
    else Err(NotFound)
  }

  lemma SplitAtDot(a: string, b: string)
    requires '.' !in a
    ensures Position(a + "." + b, '.') == |a| && (a + "." + b)[..|a|] == a && (a + "." + b)[|a| + 1..] == b
  {
    var s := a + "." + b;
    assert s[|a|] == '.' && forall i | 0 <= i < |a| :: s[i] == a[i];
  }

  lemma NoDot(a: string)
    requires '.' !in a
    ensures Position(a, '.') == |a|
  {
  }

  predicate DotFree(id: Triple) {
    '.' !in id.project && '.' !in id.dataset && '.' !in id.table
  }

  /** The one-segment spellings and the bare one always agree. */
  lemma OneSegmentSpellings(id: Triple, other: string)
    requires DotFree(id)
    ensures Names([id.dataset + "." + id.table], id, other)
    ensures Names([id.project + "." + (id.dataset + "." + id.table)], id, other)
    ensures id.dataset != "" ==> Names([id.table], id, id.dataset)
  {
    SplitAtDot(id.dataset, id.table);
    SplitAtDot(id.project, id.dataset + "." + id.table);
    NoDot(id.table);
  }

  /** Whether a path names the table `id`. */
  predicate Names(path: seq<string>, id: Triple, defaultDataset: string) {
    ParseFindTablePath(path, id.project, defaultDataset) == Ok(Resolved(id, ""))
  }

  lemma TwoSegmentsIff(id: Triple, other: string)
    ensures Names([id.dataset, id.table], id, other) <==> id.dataset != INFORMATION_SCHEMA
  {
    var path := [id.dataset, id.table];
    assert |path| == 2 && path[0] == id.dataset && path[1] == id.table;
    assert INFORMATION_SCHEMA != "";
  }

  lemma ThreeSegments(id: Triple, other: string)
    requires id.dataset != INFORMATION_SCHEMA
    ensures Names([id.project, id.dataset, id.table], id, other)
  {
    var path := [id.project, id.dataset, id.table];
    assert |path| == 3 && path[0] == id.project && path[1] == id.dataset && path[2] == id.table;
  }

  /** All spellings of dot-free ids resolve to the same table exactly when the dataset is not INFORMATION_SCHEMA. */
  lemma SpellingsAgreeIff(id: Triple, other: string)
    requires DotFree(id)
    ensures && Names([id.dataset, id.table], id, other)
            && Names([id.project, id.dataset, id.table], id, other)
            && Names([id.dataset + "." + id.table], id, other)
            && Names([id.project + "." + (id.dataset + "." + id.table)], id, other)
            && (id.dataset != "" ==> Names([id.table], id, id.dataset))
            <==> id.dataset != INFORMATION_SCHEMA
  {
    TwoSegmentsIff(id, other);
    OneSegmentSpellings(id, other);
    if id.dataset != INFORMATION_SCHEMA { ThreeSegments(id, other); }
  }

  /** A full name carries its own project. */
  lemma FullNames(id: Triple, project: string, defaultDataset: string)
    requires DotFree(id)
    ensures id.dataset != INFORMATION_SCHEMA ==>
              ParseFindTablePath([id.project, id.dataset, id.table], project, defaultDataset) == Ok(Resolved(id, ""))
    ensures ParseFindTablePath([id.project + "." + (id.dataset + "." + id.table)], project, defaultDataset) ==
            Ok(Resolved(id, ""))
  {
    SplitAtDot(id.dataset, id.table);
    SplitAtDot(id.project, id.dataset + "." + id.table);
  }

  /** The paths through INFORMATION_SCHEMA take the catalog's project. */
  lemma ViewPaths(dataset: string, v: string, project: string, defaultDataset: string)
    ensures ParseFindTablePath([INFORMATION_SCHEMA, v], project, defaultDataset) ==
            Ok(Resolved(Triple(project, "", ""), v))
    ensures ParseFindTablePath([dataset, INFORMATION_SCHEMA, v], project, defaultDataset) ==
            Ok(Resolved(Triple(project, dataset, ""), v))
  {
    var two, three := [INFORMATION_SCHEMA, v], [dataset, INFORMATION_SCHEMA, v];
    assert |two| == 2 && two[0] == INFORMATION_SCHEMA && two[1] == v;
    assert |three| == 3 && three[0] == dataset && three[1] == INFORMATION_SCHEMA && three[2] == v;
  }

  /** Only a bare name without a default dataset, and a path of no or too many segments, cannot be resolved. */
  lemma UnresolvedIff(path: seq<string>, project: string, defaultDataset: string)
    ensures ParseFindTablePath(path, project, defaultDataset).Err? <==>
            !(1 <= |path| <= 3) || (|path| == 1 && '.' !in path[0] && defaultDataset == "")
    ensures ParseFindTablePath(path, project, defaultDataset).Err? ==>
              ParseFindTablePath(path, project, defaultDataset).code == NotFound
  {
    if |path| == 1 && '.' !in path[0] { NoDot(path[0]); }
  }

  // ----- Cache keys -----

  const SEPARATOR: char := 31 as char

  function CacheKey(id: Triple): string {
    id.project + [SEPARATOR] + id.dataset + [SEPARATOR] + id.table
  }

  predicate SeparatorFree(id: Triple) {
    SEPARATOR !in id.project && SEPARATOR !in id.dataset && SEPARATOR !in id.table
  }

  /** Distinct tables have distinct keys. */
  lemma CacheKeyInjective(a: Triple, b: Triple)
    requires SeparatorFree(a) && SeparatorFree(b)
    ensures CacheKey(a) == CacheKey(b) <==> a == b
  {
    if CacheKey(a) == CacheKey(b) {
      var ra, rb := a.dataset + [SEPARATOR] + a.table, b.dataset + [SEPARATOR] + b.table;
      assert CacheKey(a) == a.project + [SEPARATOR] + ra && CacheKey(b) == b.project + [SEPARATOR] + rb;
      CutUnique(a.project, ra, b.project, rb, SEPARATOR);
      CutUnique(a.dataset, a.table, b.dataset, b.table, SEPARATOR);
    }
  }

  // ----- The cache -----

  datatype Kind = StorageTable | WildcardTable | InfoSchemaTable

  /** A table object: its address, what it was built as, and for which id. */
  datatype Object = Object(address: nat, kind: Kind, id: Triple)

  /** Parallel lists, and the next unused address. */
  datatype Cache = Cache(keys: seq<string>, tables: seq<Object>, next: nat)

  function KeyIndex(keys: seq<string>, key: string): (i: nat)
    ensures i <= |keys| && (forall k | 0 <= k < i :: keys[k] != key) && (i < |keys| ==> keys[i] == key)
  {
    if keys == [] || keys[0] == key then 0 else 1 + KeyIndex(keys[1..], key)
  }

  predicate Valid(c: Cache) {
    && |c.keys| == |c.tables|
    && (forall i | 0 <= i < |c.keys| :: c.keys[i] == CacheKey(c.tables[i].id) && SeparatorFree(c.tables[i].id))
    && (forall i, j | 0 <= i < j < |c.keys| :: c.keys[i] != c.keys[j])
    && (forall i, j | 0 <= i < j < |c.tables| :: c.tables[i].address != c.tables[j].address)
    && (forall i | 0 <= i < |c.tables| :: c.tables[i].address < c.next)
  }

  function Cached(c: Cache, id: Triple): Option<Object>
    requires Valid(c)
  {
    var i := KeyIndex(c.keys, CacheKey(id));
    if i < |c.keys| then Some(c.tables[i]) else None
  }

  /** The object of a new entry. */
  function Fresh(c: Cache, kind: Kind, id: Triple): Object {
    Object(c.next, kind, id)
  }

  function Push(c: Cache, kind: Kind, id: Triple): Cache {
    Cache(c.keys + [CacheKey(id)], c.tables + [Fresh(c, kind, id)], c.next + 1)
  }

  /** What a failed measure column does: pop the last entry, if it is the table's own. */
  function Rollback(c: Cache, id: Triple): (c': Cache)
    requires Valid(c)
    ensures Valid(c')
  {
    var n := |c.keys|;
    if n > 0 && c.keys[n - 1] == CacheKey(id) then c.(keys := c.keys[..n - 1], tables := c.tables[..n - 1]) else c
  }

  lemma PushValid(c: Cache, kind: Kind, id: Triple)
    requires Valid(c) && SeparatorFree(id) && Cached(c, id).None?
    ensures Valid(Push(c, kind, id))
  {
  }

  /** The cached object is the one stored for that id. */
  lemma CachedMeans(c: Cache, id: Triple, o: Object)
    requires Valid(c) && SeparatorFree(id)
    ensures Cached(c, id) == Some(o) <==> o in c.tables && o.id == id
  {
    var i := KeyIndex(c.keys, CacheKey(id));
    if i < |c.keys| { CacheKeyInjective(c.tables[i].id, id); }
    if j :| 0 <= j < |c.tables| && c.tables[j] == o && o.id == id { assert c.keys[j] == CacheKey(id); }
  }

  // ----- Runs -----

  /** One critical section of some lookup: find or build an entry, or undo after a failed measure column. */
  datatype Action = Lookup(kind: Kind, id: Triple) | MeasureFailed(id: Triple)

  predicate Plain(a: Action) {
    SeparatorFree(a.id)
  }

  /** Every step keeps the lists parallel and free of duplicates. */
  function Step(c: Cache, a: Action): (c': Cache)
    requires Valid(c) && Plain(a)
    ensures Valid(c')
  {
    match a
    case Lookup(kind, id) =>
      if Cached(c, id).Some? then c else
        PushValid(c, kind, id);
        Push(c, kind, id)
    case MeasureFailed(id) => Rollback(c, id)
  }

  /** Every interleaving of lookups and undos keeps them too. */
  function Run(c: Cache, actions: seq<Action>): (c': Cache)
    requires Valid(c) && forall i | 0 <= i < |actions| :: Plain(actions[i])
    ensures Valid(c')
    decreases |actions|
  {
    if actions == [] then c
    else Run(Step(c, actions[0]), actions[1..])
  }

  predicate Undoes(actions: seq<Action>, id: Triple) {
    exists i :: 0 <= i < |actions| && actions[i] == MeasureFailed(id)
  }

  lemma StepKeeps(c: Cache, a: Action, id: Triple, o: Object)
    requires Valid(c) && Plain(a) && SeparatorFree(id) && Cached(c, id) == Some(o) && a != MeasureFailed(id)
    ensures Cached(Step(c, a), id) == Some(o)
  {
    CachedMeans(c, id, o);
    CachedMeans(Step(c, a), id, o);
    if a.MeasureFailed? {
      var n := |c.keys|;
      CacheKeyInjective(a.id, id);
      assert c.tables == c.tables[..n - 1] + [c.tables[n - 1]];
    }
  }

  /** An entry, once made, keeps its object through any interleaving in which its own measures do not fail. */
  lemma {:induction false} EntryIsStable(c: Cache, actions: seq<Action>, id: Triple, o: Object)
    requires Valid(c) && (forall i | 0 <= i < |actions| :: Plain(actions[i])) && SeparatorFree(id)
    requires Cached(c, id) == Some(o) && !Undoes(actions, id)
    ensures Cached(Run(c, actions), id) == Some(o)
    decreases |actions|
  {
    if actions != [] {
      assert actions[0] != MeasureFailed(id);
      StepKeeps(c, actions[0], id, o);
      assert forall i | 0 <= i < |actions| - 1 :: actions[1..][i] == actions[i + 1];
      EntryIsStable(Step(c, actions[0]), actions[1..], id, o);
    }
  }

  /** So two lookups of one table get one object, whatever runs between them. */
  lemma RepeatedLookupSameObject(c: Cache, kind: Kind, id: Triple, between: seq<Action>, kind': Kind)
    requires Valid(c) && SeparatorFree(id)
    requires (forall i | 0 <= i < |between| :: Plain(between[i])) && !Undoes(between, id)
    ensures var first := Step(c, Lookup(kind, id));
            var later := Run(first, between);
            Cached(first, id).Some? && Cached(Step(later, Lookup(kind', id)), id) == Cached(first, id)
  {
    var first := Step(c, Lookup(kind, id));
    if Cached(c, id).None? {
      assert first.tables[|c.tables|] == Fresh(c, kind, id);
      CachedMeans(first, id, Fresh(c, kind, id));
    }
    EntryIsStable(first, between, id, Cached(first, id).value);
  }

  /** An undo removes the table's entry exactly when nothing was added after it. */
  lemma RollbackRemovesIff(c: Cache, id: Triple)
    requires Valid(c) && SeparatorFree(id) && Cached(c, id).Some?
    ensures Cached(Rollback(c, id), id).None? <==> c.tables[|c.tables| - 1].id == id
  {
    var n := |c.keys|;
    CacheKeyInjective(c.tables[n - 1].id, id);
  }

  /** So after another table was added, a refused table stays and answers the next lookup. */
  lemma RefusedTableStays(c: Cache, a: Triple, b: Triple)
    requires Valid(c) && SeparatorFree(a) && SeparatorFree(b) && a != b && Cached(c, a).None? && Cached(c, b).None?
    ensures var c' := Run(c, [Lookup(StorageTable, a), Lookup(StorageTable, b), MeasureFailed(a)]);
            Cached(c', a) == Some(Fresh(c, StorageTable, a))
  {
    var one := Step(c, Lookup(StorageTable, a));
    var o := Fresh(c, StorageTable, a);
    assert one.tables[|c.tables|] == o;
    CachedMeans(one, a, o);
    StepKeeps(one, Lookup(StorageTable, b), a, o);
    CacheKeyInjective(a, b);
    RunThree(c, Lookup(StorageTable, a), Lookup(StorageTable, b), MeasureFailed(a));
    AbsentStays(c, Lookup(StorageTable, a), b);
  }

  lemma RunThree(c: Cache, x: Action, y: Action, z: Action)
    requires Valid(c) && Plain(x) && Plain(y) && Plain(z)
    ensures Run(c, [x, y, z]) == Step(Step(Step(c, x), y), z)
  {
    assert [x, y, z] == [x] + [y, z] && [y, z] == [y] + [z] && [z] == [z] + [];
    RunCons(c, x, [y, z]);
    RunCons(Step(c, x), y, [z]);
    RunCons(Step(Step(c, x), y), z, []);
  }

  lemma {:induction false} RunCons(c: Cache, x: Action, rest: seq<Action>)
    requires Valid(c) && Plain(x) && forall i | 0 <= i < |rest| :: Plain(rest[i])
    ensures forall i | 0 <= i < |[x] + rest| :: Plain(([x] + rest)[i])
    ensures Run(c, [x] + rest) == Run(Step(c, x), rest)
  {
    assert ([x] + rest)[1..] == rest;
  }

  lemma AbsentStays(c: Cache, a: Action, id: Triple)
    requires Valid(c) && Plain(a) && SeparatorFree(id) && Cached(c, id).None? && a.id != id
    ensures Cached(Step(c, a), id).None?
  {
    CacheKeyInjective(a.id, id);
  }

  // ----- Ownership of what was handed out -----

  predicate Drops(c: Cache, a: Action, o: Object) {
    a == MeasureFailed(o.id) && c.tables != [] && c.tables[|c.tables| - 1] == o
  }

  lemma StepOwns(c: Cache, a: Action, o: Object)
    requires Valid(c) && Plain(a) && SeparatorFree(o.id) && o.address < c.next
    ensures o in Step(c, a).tables <==> o in c.tables && !Drops(c, a, o)
    ensures c.next <= Step(c, a).next
  {
    if a.Lookup? {
      if Cached(c, a.id).None? { assert Step(c, a).tables == c.tables + [Fresh(c, a.kind, a.id)]; }
    } else {
      RollbackOwns(c, a.id, o);
    }
  }

  lemma RollbackOwns(c: Cache, id: Triple, o: Object)
    requires Valid(c) && SeparatorFree(id) && SeparatorFree(o.id)
    ensures o in Rollback(c, id).tables <==> o in c.tables && !Drops(c, MeasureFailed(id), o)
  {
    if c.tables != [] {
      var n := |c.tables|;
      CacheKeyInjective(id, c.tables[n - 1].id);
      assert c.tables == c.tables[..n - 1] + [c.tables[n - 1]];
      assert forall k | 0 <= k < n - 1 :: c.tables[k] != c.tables[n - 1];
    }
  }

  function IdsOf(c: Cache): seq<Triple> {
    seq(|c.tables|, i requires 0 <= i < |c.tables| => c.tables[i].id)
  }

  /** What a step does to the list of cached ids, read off the action alone. */
  function IdsStep(ids: seq<Triple>, a: Action): seq<Triple> {
    match a
    case Lookup(_, id) => if id in ids then ids else ids + [id]
    case MeasureFailed(id) => if ids != [] && ids[|ids| - 1] == id then ids[..|ids| - 1] else ids
  }

  /** No undo of the id comes when every id added after it has itself been undone. */
  predicate Survives(ids: seq<Triple>, actions: seq<Action>, id: Triple)
    decreases |actions|
  {
    actions == [] ||
    (&& !(actions[0] == MeasureFailed(id) && ids != [] && ids[|ids| - 1] == id)
     && Survives(IdsStep(ids, actions[0]), actions[1..], id))
  }

  lemma IdsFollow(c: Cache, a: Action)
    requires Valid(c) && Plain(a)
    ensures IdsOf(Step(c, a)) == IdsStep(IdsOf(c), a)
  {
    if a.Lookup? {
      CachedId(c, a.id);
    } else if c.tables != [] {
      CacheKeyInjective(a.id, c.tables[|c.tables| - 1].id);
    }
  }

  lemma CachedId(c: Cache, id: Triple)
    requires Valid(c) && SeparatorFree(id)
    ensures Cached(c, id).Some? <==> id in IdsOf(c)
  {
    if Cached(c, id).Some? {
      CachedMeans(c, id, Cached(c, id).value);
      var i :| 0 <= i < |c.tables| && c.tables[i] == Cached(c, id).value;
      assert IdsOf(c)[i] == id;
    }
    if i :| 0 <= i < |c.tables| && IdsOf(c)[i] == id { CachedMeans(c, id, c.tables[i]); }
  }

  lemma DropsById(c: Cache, a: Action, o: Object)
    requires Valid(c) && o in c.tables
    ensures Drops(c, a, o) <==> a == MeasureFailed(o.id) && IdsOf(c)[|c.tables| - 1] == o.id
  {
    var i :| 0 <= i < |c.tables| && c.tables[i] == o;
    var last := |c.tables| - 1;
    assert c.keys[i] == CacheKey(o.id) && c.keys[last] == CacheKey(c.tables[last].id);
  }

  /**
   An object handed out is owned to the end of a run exactly when its id survives the action list, which
   depends on the ids cached at the start and the actions alone.
   */
  lemma {:induction false} HandedOutOwnedIff(c: Cache, actions: seq<Action>, o: Object)
    requires Valid(c) && (forall i | 0 <= i < |actions| :: Plain(actions[i])) && SeparatorFree(o.id)
    requires o.address < c.next
    ensures o in Run(c, actions).tables <==> o in c.tables && Survives(IdsOf(c), actions, o.id)
    decreases |actions|
  {
    if actions != [] {
      StepOwns(c, actions[0], o);
      IdsFollow(c, actions[0]);
      if o in c.tables { DropsById(c, actions[0], o); }
      HandedOutOwnedIff(Step(c, actions[0]), actions[1..], o);
    }
  }

  /** A second lookup that shared the object is left with one no longer owned when the first is undone. */
  lemma SharedObjectDropped(c: Cache, id: Triple)
    requires Valid(c) && SeparatorFree(id) && Cached(c, id).None?
    ensures var one := Step(c, Lookup(StorageTable, id));
            var o := Fresh(c, StorageTable, id);
            && Cached(one, id) == Some(o) && Cached(Step(one, Lookup(StorageTable, id)), id) == Some(o)
            && o !in Run(c, [Lookup(StorageTable, id), Lookup(StorageTable, id), MeasureFailed(id)]).tables
  {
    var one := Step(c, Lookup(StorageTable, id));
    var o := Fresh(c, StorageTable, id);
    assert one.tables[|c.tables|] == o;
    CachedMeans(one, id, o);
    RunThree(c, Lookup(StorageTable, id), Lookup(StorageTable, id), MeasureFailed(id));
    StepOwns(one, MeasureFailed(id), o);
  }

  /** A lookup that fails its measures with nothing in between leaves the lists as they were. */
  lemma FailedLookupRestores(c: Cache, id: Triple)
    requires Valid(c) && SeparatorFree(id) && Cached(c, id).None?
    ensures var c' := Step(Step(c, Lookup(StorageTable, id)), MeasureFailed(id));
            c'.keys == c.keys && c'.tables == c.tables
  {
  }

  // ----- Kinds -----

  /** The kind a table id calls for outside INFORMATION_SCHEMA. */
  function KindFor(id: Triple): Kind {
    if Wildcard.IsWildcardTableId(id.table) then WildcardTable else StorageTable
  }

  predicate Agrees(a: Action) {
    a.Lookup? ==> a.kind == KindFor(a.id)
  }

  ghost predicate KindsRight(c: Cache) {
    forall o | o in c.tables :: o.kind == KindFor(o.id)
  }

  /** Without INFORMATION_SCHEMA lookups every cached object is of the kind its id calls for. */
  lemma {:induction false} KindsStayRight(c: Cache, actions: seq<Action>)
    requires Valid(c) && (forall i | 0 <= i < |actions| :: Plain(actions[i]) && Agrees(actions[i])) && KindsRight(c)
    ensures KindsRight(Run(c, actions))
    decreases |actions|
  {
    if actions != [] {
      var next := Step(c, actions[0]);
      forall o | o in next.tables ensures o.kind == KindFor(o.id) {
        if o !in c.tables { assert o == Fresh(c, actions[0].kind, actions[0].id); }
      }
      KindsStayRight(next, actions[1..]);
    }
  }

  // ----- The catalog -----

  predicate IsInfoSchemaView(view: string) {
    view in ["TABLES", "COLUMNS", "SCHEMATA", "VIEWS", "ROUTINES", "TABLE_OPTIONS", "COLUMN_FIELD_PATHS",
             "PARTITIONS", "TABLE_STORAGE", "TABLE_STORAGE_BY_PROJECT", "KEY_COLUMN_USAGE"]
  }

  /** What the view registry, storage and the measure analyzer answer for an id. */
  datatype Backend = Backend(
    view: Triple -> Option<nat>,
    tableError: Triple -> Option<Code>,
    wildcardError: Triple -> Option<Code>,
    measuresError: Triple -> Option<Code>)

  datatype Found = View(address: nat) | Table(entry: Object)

  /** The id a resolved path is cached under. */
  function CacheId(t: Resolved): Triple {
    if t.view != "" then t.id.(table := t.view) else t.id
  }

  /** The object kind a resolved path asks for. */
  function Wanted(t: Resolved): Kind {
    if t.view != "" then InfoSchemaTable else KindFor(t.id)
  }

  /** Why a resolved path is refused, if it is. */
  function Refusal(c: Cache, t: Resolved, b: Backend): Option<Code>
    requires Valid(c)
  {
    if t.view != "" && !IsInfoSchemaView(t.view) then Some(NotFound)
    else if Cached(c, CacheId(t)).Some? || Wanted(t) == InfoSchemaTable then None
    else if Wanted(t) == WildcardTable then b.wildcardError(t.id)
    else if b.view(t.id).Some? then None
    else if b.tableError(t.id).Some? then b.tableError(t.id)
    else b.measuresError(t.id)
  }

  const VIEWS := {"TABLES", "COLUMNS", "SCHEMATA", "VIEWS", "ROUTINES", "TABLE_OPTIONS", "COLUMN_FIELD_PATHS",
                  "PARTITIONS", "TABLE_STORAGE", "TABLE_STORAGE_BY_PROJECT", "KEY_COLUMN_USAGE"}

  /** A view name is refused iff it is unknown; a wildcard id for its own error only; neither when cached. */
  lemma RefusedViewsAndWildcards(c: Cache, t: Resolved, b: Backend)
    requires Valid(c)
    ensures t.view != "" ==> Refusal(c, t, b) == if t.view in VIEWS then None else Some(NotFound)
    ensures t.view == "" && t.id.table != "" && t.id.table[|t.id.table| - 1] == '*' ==>
              Refusal(c, t, b) == if Cached(c, t.id).Some? then None else b.wildcardError(t.id)
  {
  }

  /** A plain table: the cache comes first, then a registered view, then its error in storage, then its measures'. */
  lemma RefusedTables(c: Cache, t: Resolved, b: Backend)
    requires Valid(c) && t.view == "" && (t.id.table == "" || t.id.table[|t.id.table| - 1] != '*')
    ensures Cached(c, t.id).Some? || b.view(t.id).Some? ==> Refusal(c, t, b).None?
    ensures ByView(c, t, b) <==> Cached(c, t.id).None? && b.view(t.id).Some?
    ensures Cached(c, t.id).None? && b.view(t.id).None? && b.tableError(t.id).Some? ==>
              Refusal(c, t, b) == b.tableError(t.id)
    ensures Cached(c, t.id).None? && b.view(t.id).None? && b.tableError(t.id).None? ==>
              Refusal(c, t, b) == b.measuresError(t.id)
  {
  }

  /** A registered view answers only for a plain table id that is not cached. */
  predicate ByView(c: Cache, t: Resolved, b: Backend)
    requires Valid(c)
  {
    Wanted(t) == StorageTable && Cached(c, t.id).None? && b.view(t.id).Some?
  }

  /** Paths with one cache entry of which exactly one names an INFORMATION_SCHEMA view. */
  predicate Clash(t: Resolved, t': Resolved) {
    CacheId(t) == CacheId(t') && (t.view == "") != (t'.view == "")
  }

  function LookupOf(t: Resolved): Action {
    Lookup(Wanted(t), CacheId(t))
  }

  /** A lookup that nothing runs beside: a path, and what stands behind the catalog at that time. */
  datatype Ask = Ask(path: Resolved, backend: Backend)

  const SOME_ASK := Ask(Resolved(Triple("", "", ""), ""), Backend(_ => None, _ => None, _ => None, _ => None))

  /** The lookup is answered with a cached or new table: neither refused nor answered by a registered view. */
  predicate Served(c: Cache, q: Ask)
    requires Valid(c)
  {
    Refusal(c, q.path, q.backend).None? && !ByView(c, q.path, q.backend)
  }

  function Asked(c: Cache, q: Ask): (c': Cache)
    requires Valid(c) && SeparatorFree(CacheId(q.path))
    ensures Valid(c')
  {
    After(c, q.path, q.backend, [])
  }

  /** A served lookup is one step of the cache. */
  lemma ServedIsStep(c: Cache, q: Ask)
    requires Valid(c) && SeparatorFree(CacheId(q.path)) && Served(c, q)
    ensures Asked(c, q) == Step(c, LookupOf(q.path))
  {
  }

  /** A second lookup under the same entry gets the kind it wants, whatever ran between, iff they do not clash. */
  lemma KindsClashIff(c: Cache, q: Ask, between: seq<Action>, q': Ask)
    requires Valid(c) && SeparatorFree(CacheId(q.path)) && CacheId(q.path) == CacheId(q'.path)
    requires Cached(c, CacheId(q.path)).None? && Served(c, q)
    requires (forall i | 0 <= i < |between| :: Plain(between[i])) && !Undoes(between, CacheId(q.path))
    requires Served(Run(Asked(c, q), between), q')
    ensures var o := Cached(Asked(Run(Asked(c, q), between), q'), CacheId(q'.path));
            o.Some? && (o.value.kind == Wanted(q'.path) <==> !Clash(q.path, q'.path))
  {
    var id := CacheId(q.path);
    ServedIsStep(c, q);
    ServedIsStep(Run(Asked(c, q), between), q');
    NewEntryIs(c, Wanted(q.path), id);
    RepeatedLookupSameObject(c, Wanted(q.path), id, between, Wanted(q'.path));
    WantedDiffersIff(q.path, q'.path);
  }

  lemma WantedDiffersIff(t: Resolved, t': Resolved)
    requires CacheId(t) == CacheId(t')
    ensures Wanted(t) != Wanted(t') <==> Clash(t, t')
  {
  }

  lemma NewEntryIs(c: Cache, kind: Kind, id: Triple)
    requires Valid(c) && SeparatorFree(id) && Cached(c, id).None?
    ensures Cached(Step(c, Lookup(kind, id)), id) == Some(Fresh(c, kind, id))
  {
    var next := Step(c, Lookup(kind, id));
    assert next.tables[|c.tables|] == Fresh(c, kind, id);
    CachedMeans(next, id, Fresh(c, kind, id));
  }

  // ----- Kinds over whole runs -----

  /** A lookup that was answered: the key it went to, what it wanted there and what it found. */
  datatype Answer<+K, +V> = Answer(key: K, wanted: V, found: Option<V>)

  type Log<K, V> = seq<Option<Answer<K, V>>>

  predicate Under<K(==), V>(log: Log<K, V>, i: nat, key: K)
    requires i < |log|
  {
    log[i].Some? && log[i].value.key == key
  }

  predicate First<K(==), V>(log: Log<K, V>, f: nat, key: K)
    requires f < |log|
  {
    Under(log, f, key) && forall i | 0 <= i < f :: !Under(log, i, key)
  }

  /** `v` is what the first answer under the key wanted, and absent if there was none. */
  ghost predicate Decided<K, V>(log: Log<K, V>, key: K, v: Option<V>) {
    if v.None? then forall i | 0 <= i < |log| :: !Under(log, i, key)
    else exists f :: 0 <= f < |log| && First(log, f, key) && log[f].value.wanted == v.value
  }

  /** Every answer found what the first answer under its key wanted. */
  ghost predicate Explained<K, V>(log: Log<K, V>) {
    forall i | 0 <= i < |log| && log[i].Some? :: ExplainedAt(log, i)
  }

  ghost predicate ExplainedAt<K, V>(log: Log<K, V>, i: nat)
    requires i < |log| && log[i].Some?
  {
    exists f :: 0 <= f <= i && First(log, f, log[i].value.key) && log[i].value.found == Some(log[f].value.wanted)
  }

  lemma FirstStays<K, V>(log: Log<K, V>, a: Option<Answer<K, V>>, f: nat, key: K)
    requires f < |log| && First(log, f, key)
    ensures First(log + [a], f, key)
  {
    assert forall i | 0 <= i <= f :: Under(log + [a], i, key) <==> Under(log, i, key);
  }

  lemma DecidedStep<K, V>(log: Log<K, V>, a: Option<Answer<K, V>>, key: K, was: Option<V>)
    requires Decided(log, key, was)
    ensures Decided(log + [a], key, Kept(was, a, key))
  {
    if was.Some? {
      var f :| 0 <= f < |log| && First(log, f, key) && log[f].value.wanted == was.value;
      FirstStays(log, a, f, key);
    } else {
      assert forall i | 0 <= i < |log| :: Under(log + [a], i, key) <==> Under(log, i, key);
      if Kept(was, a, key).Some? { assert First(log + [a], |log|, key); }
    }
  }

  lemma ExplainedStep<K, V>(log: Log<K, V>, a: Option<Answer<K, V>>)
    requires Explained(log)
    requires a.Some? ==> Decided(log + [a], a.value.key, a.value.found)
    ensures Explained(log + [a])
  {
    var more := log + [a];
    forall i | 0 <= i < |more| && more[i].Some? ensures ExplainedAt(more, i) {
      if i < |log| {
        assert ExplainedAt(log, i) && more[i] == log[i];
        var f :| 0 <= f <= i && First(log, f, log[i].value.key) && log[i].value.found == Some(log[f].value.wanted);
        FirstStays(log, a, f, log[i].value.key);
      } else {
        assert Under(more, i, a.value.key);
      }
    }
  }

  /** The state after a sequence of lookups. */
  function StateAfter<S, Q>(next: (S, Q) -> S, s: S, asks: seq<Q>): S {
    if asks == [] then s
    else next(StateAfter(next, s, asks[..|asks| - 1]), asks[|asks| - 1])
  }

  /** The answers to a sequence of lookups, by position. */
  function LogOf<S, Q, K, V>(next: (S, Q) -> S, answer: (S, Q) -> Option<Answer<K, V>>, s: S, asks: seq<Q>)
    : (log: Log<K, V>)
    ensures |log| == |asks|
  {
    if asks == [] then []
    else
      var before := asks[..|asks| - 1];
      LogOf(next, answer, s, before) + [answer(StateAfter(next, s, before), asks[|asks| - 1])]
  }

  function Kept<K(==), V>(was: Option<V>, a: Option<Answer<K, V>>, key: K): Option<V> {
    if was.Some? then was else if a.Some? && a.value.key == key then Some(a.value.wanted) else None
  }

  /** A table that no lookup overwrites, and that an answered lookup fills and reads. */
  ghost predicate FirstWins<S(!new), Q(!new), K(!new), V>
    (next: (S, Q) -> S, answer: (S, Q) -> Option<Answer<K, V>>, found: (S, K) -> Option<V>)
  {
    && (forall s, q, k :: found(next(s, q), k) == Kept(found(s, k), answer(s, q), k))
    && (forall s, q :: answer(s, q).Some? ==>
          answer(s, q).value.found == found(next(s, q), answer(s, q).value.key))
  }

  /** The first lookup answered under a key decides what is found there for good. */
  lemma {:induction false} FirstDecides<S(!new), Q(!new), K(!new), V>
    (next: (S, Q) -> S, answer: (S, Q) -> Option<Answer<K, V>>, found: (S, K) -> Option<V>, s: S, asks: seq<Q>, key: K)
    requires FirstWins(next, answer, found) && found(s, key).None?
    ensures Decided(LogOf(next, answer, s, asks), key, found(StateAfter(next, s, asks), key))
  {
    if asks != [] {
      var before, q := asks[..|asks| - 1], asks[|asks| - 1];
      var mid := StateAfter(next, s, before);
      FirstDecides(next, answer, found, s, before, key);
      DecidedStep(LogOf(next, answer, s, before), answer(mid, q), key, found(mid, key));
      assert found(next(mid, q), key) == Kept(found(mid, key), answer(mid, q), key);
    }
  }

  lemma {:induction false} RunExplained<S(!new), Q(!new), K(!new), V>
    (next: (S, Q) -> S, answer: (S, Q) -> Option<Answer<K, V>>, found: (S, K) -> Option<V>, s: S, asks: seq<Q>)
    requires FirstWins(next, answer, found) && forall key :: found(s, key).None?
    ensures Explained(LogOf(next, answer, s, asks))
  {
    if asks != [] {
      var before, q := asks[..|asks| - 1], asks[|asks| - 1];
      var a := answer(StateAfter(next, s, before), q);
      RunExplained(next, answer, found, s, before);
      if a.Some? { FirstDecides(next, answer, found, s, asks, a.value.key); }
      ExplainedStep(LogOf(next, answer, s, before), a);
    }
  }

  predicate Differ<K(==), V(==)>(a: Answer<K, V>, b: Answer<K, V>) {
    a.key == b.key && a.wanted != b.wanted
  }

  lemma DifferMisses<K, V>(log: Log<K, V>, i: nat, j: nat)
    requires Explained(log) && i < j < |log| && log[i].Some? && log[j].Some? && Differ(log[i].value, log[j].value)
    ensures log[i].value.found != Some(log[i].value.wanted) || log[j].value.found != Some(log[j].value.wanted)
  {
    assert ExplainedAt(log, i) && ExplainedAt(log, j);
  }

  lemma MissDiffers<K, V>(log: Log<K, V>, i: nat) returns (f: nat)
    requires Explained(log) && i < |log| && log[i].Some? && log[i].value.found != Some(log[i].value.wanted)
    ensures f < i && log[f].Some? && Differ(log[f].value, log[i].value)
  {
    assert ExplainedAt(log, i);
    f :| 0 <= f <= i && First(log, f, log[i].value.key) && log[i].value.found == Some(log[f].value.wanted);
  }

  /** Every answer found what it wanted iff no two wanted different things under one key. */
  lemma AllFoundIff<K, V>(log: Log<K, V>)
    requires Explained(log)
    ensures (forall i | 0 <= i < |log| && log[i].Some? :: log[i].value.found == Some(log[i].value.wanted)) <==>
            forall i, j | 0 <= i < j < |log| && log[i].Some? && log[j].Some? :: !Differ(log[i].value, log[j].value)
  {
    if i, j :| 0 <= i < j < |log| && log[i].Some? && log[j].Some? && Differ(log[i].value, log[j].value) {
      DifferMisses(log, i, j);
    }
    if i :| 0 <= i < |log| && log[i].Some? && log[i].value.found != Some(log[i].value.wanted) {
      var f := MissDiffers(log, i);
    }
  }

  /** A cached entry outlives any lookup that runs alone. */
  lemma FoundKeeps(c: Cache, q: Ask, id: Triple, o: Object)
    requires Valid(c) && SeparatorFree(CacheId(q.path)) && SeparatorFree(id) && Cached(c, id) == Some(o)
    ensures Cached(Asked(c, q), id) == Some(o)
  {
    if Asked(c, q) != c {
      var a := LookupOf(q.path);
      StepKeeps(c, a, id, o);
      if q.path.view == "" && q.path.id != id { StepKeeps(Step(c, a), MeasureFailed(q.path.id), id, o); }
    }
  }

  /** An absent entry appears only by being served. */
  lemma FoundAbsent(c: Cache, q: Ask, id: Triple)
    requires Valid(c) && SeparatorFree(CacheId(q.path)) && SeparatorFree(id) && Cached(c, id).None?
    ensures Cached(Asked(c, q), id) ==
            if Served(c, q) && CacheId(q.path) == id then Some(Fresh(c, Wanted(q.path), id)) else None
  {
    var t := q.path;
    if Served(c, q) {
      ServedIsStep(c, q);
      if CacheId(t) == id { NewEntryIs(c, Wanted(t), id); } else { AbsentStays(c, LookupOf(t), id); }
    } else if Asked(c, q) != c {
      FailedLookupRestores(c, t.id);
    }
  }

  type ValidCache = c: Cache | Valid(c) witness Cache([], [], 0)
  type PlainId = id: Triple | SeparatorFree(id) witness Triple("", "", "")
  type PlainAsk = q: Ask | SeparatorFree(CacheId(q.path)) witness SOME_ASK

  const NOTHING: ValidCache := Cache([], [], 0)

  function KindAt(c: ValidCache, id: PlainId): Option<Kind> {
    if Cached(c, id).Some? then Some(Cached(c, id).value.kind) else None
  }

  function Next(c: ValidCache, q: PlainAsk): ValidCache {
    Asked(c, q)
  }

  /** The answer to a lookup that is served: the kind wanted, and the kind found. */
  function AnswerTo(c: ValidCache, q: PlainAsk): Option<Answer<PlainId, Kind>> {
    var id: PlainId := CacheId(q.path);
    if Served(c, q) then Some(Answer(id, Wanted(q.path), KindAt(Next(c, q), id))) else None
  }

  lemma AskKeeps(c: ValidCache, q: PlainAsk, id: PlainId)
    ensures KindAt(Next(c, q), id) == Kept(KindAt(c, id), AnswerTo(c, q), id)
  {
    if Cached(c, id).Some? { FoundKeeps(c, q, id, Cached(c, id).value); } else { FoundAbsent(c, q, id); }
  }

  lemma CacheFirstWins()
    ensures FirstWins<ValidCache, PlainAsk, PlainId, Kind>(Next, AnswerTo, KindAt)
  {
    forall c, q, id ensures KindAt(Next(c, q), id) == Kept(KindAt(c, id), AnswerTo(c, q), id) { AskKeeps(c, q, id); }
  }

  /** The answers to a sequence of lookups that starts with an empty cache. */
  function Answers(asks: seq<PlainAsk>): (log: Log<PlainId, Kind>)
    ensures |log| == |asks|
  {
    LogOf<ValidCache, PlainAsk, PlainId, Kind>(Next, AnswerTo, NOTHING, asks)
  }

  lemma {:induction false} AnswersAre(asks: seq<PlainAsk>, i: nat)
    requires i < |asks| && Answers(asks)[i].Some?
    ensures Answers(asks)[i].value.key == CacheId(asks[i].path)
    ensures Answers(asks)[i].value.wanted == Wanted(asks[i].path)
    decreases |asks|
  {
    if i < |asks| - 1 { AnswersAre(asks[..|asks| - 1], i); }
  }

  /**
   From an empty cache, every served lookup of a sequence gets the kind it wants exactly when no two served
   paths clash; refused lookups and registered views may come between.
   */
  lemma RunKindsIff(asks: seq<PlainAsk>)
    ensures var log := Answers(asks);
            (forall i | 0 <= i < |asks| && log[i].Some? :: log[i].value.found == Some(Wanted(asks[i].path))) <==>
            forall i, j | 0 <= i < j < |asks| && log[i].Some? && log[j].Some? :: !Clash(asks[i].path, asks[j].path)
  {
    var log := Answers(asks);
    CacheFirstWins();
    RunExplained<ValidCache, PlainAsk, PlainId, Kind>(Next, AnswerTo, KindAt, NOTHING, asks);
    AllFoundIff(log);
    forall i | 0 <= i < |asks| && log[i].Some?
      ensures log[i].value.key == CacheId(asks[i].path) && log[i].value.wanted == Wanted(asks[i].path)
    {
      AnswersAre(asks, i);
    }
    forall i, j | 0 <= i < j < |asks| && log[i].Some? && log[j].Some?
      ensures Differ(log[i].value, log[j].value) <==> Clash(asks[i].path, asks[j].path)
    {
      DifferIffClash(log[i].value, asks[i].path, log[j].value, asks[j].path);
    }
  }

  lemma DifferIffClash(a: Answer<PlainId, Kind>, t: Resolved, b: Answer<PlainId, Kind>, u: Resolved)
    requires a.key == CacheId(t) && a.wanted == Wanted(t) && b.key == CacheId(u) && b.wanted == Wanted(u)
    ensures Differ(a, b) <==> Clash(t, u)
  {
    if CacheId(t) == CacheId(u) { WantedDiffersIff(t, u); }
  }

  /** So `d.INFORMATION_SCHEMA.V`, looked up first, also answers for the table `d.V`. */
  lemma InfoSchemaShadowsTable(c: Cache, project: string, d: string, v: string, other: string)
    requires Valid(c) && d != INFORMATION_SCHEMA && IsInfoSchemaView(v) && SeparatorFree(Triple(project, d, v))
    requires Cached(c, Triple(project, d, v)).None?
    ensures ParseFindTablePath([d, INFORMATION_SCHEMA, v], project, other) == Ok(Resolved(Triple(project, d, ""), v))
    ensures ParseFindTablePath([d, v], project, other) == Ok(Resolved(Triple(project, d, v), ""))
    ensures var id := Triple(project, d, v);
            var o := Cached(Step(Step(c, Lookup(InfoSchemaTable, id)), Lookup(KindFor(id), id)), id);
            o == Some(Fresh(c, InfoSchemaTable, id)) && KindFor(id) == StorageTable
  {
    var id := Triple(project, d, v);
    var next := Step(c, Lookup(InfoSchemaTable, id));
    assert next.tables[|c.tables|] == Fresh(c, InfoSchemaTable, id);
    CachedMeans(next, id, Fresh(c, InfoSchemaTable, id));
    ParseTwoAndThree(project, d, v, other);
    NotWildcard(v);
  }

  lemma ParseTwoAndThree(project: string, d: string, v: string, other: string)
    requires d != INFORMATION_SCHEMA
    ensures ParseFindTablePath([d, INFORMATION_SCHEMA, v], project, other) == Ok(Resolved(Triple(project, d, ""), v))
    ensures ParseFindTablePath([d, v], project, other) == Ok(Resolved(Triple(project, d, v), ""))
  {
    var two, three := [d, v], [d, INFORMATION_SCHEMA, v];
    assert |two| == 2 && two[0] == d && two[1] == v;
    assert |three| == 3 && three[0] == d && three[1] == INFORMATION_SCHEMA && three[2] == v;
  }

  lemma NotWildcard(v: string)
    requires IsInfoSchemaView(v)
    ensures !Wildcard.IsWildcardTableId(v)
  {
  }

  /** The cache after a lookup; `during` are the steps other lookups take while measure columns are analysed. */
  function After(c: Cache, t: Resolved, b: Backend, during: seq<Action>): Cache
    requires Valid(c) && SeparatorFree(CacheId(t)) && forall i | 0 <= i < |during| :: Plain(during[i])
  {
    if Cached(c, CacheId(t)).Some? || ByView(c, t, b) then c
    else if Wanted(t) == StorageTable && b.tableError(t.id).None? then
      var built := Run(Step(c, Lookup(StorageTable, t.id)), during);
      if b.measuresError(t.id).Some? then Step(built, MeasureFailed(t.id)) else built
    else if Refusal(c, t, b).Some? then c
    else Step(c, Lookup(Wanted(t), CacheId(t)))
  }

  class GoogleSqlCatalog {
    const project: string
    const defaultDataset: string
    var keys: seq<string>
    var tables: seq<Object>
    var next: nat
    var viewKeys: seq<string>
    var views: seq<nat>

    constructor (project: string, defaultDataset: string)
      ensures this.project == project && this.defaultDataset == defaultDataset
      ensures keys == [] && tables == [] && viewKeys == [] && views == [] && Valid(State())
    {
      this.project, this.defaultDataset := project, defaultDataset;
      keys, tables, next, viewKeys, views := [], [], 0, [], [];
    }

    function State(): Cache
      reads this
    {
      Cache(keys, tables, next)
    }

    /** The linear search every lookup starts with. */
    method Search(id: Triple) returns (o: Option<Object>)
      requires Valid(State())
      ensures o == Cached(State(), id)
    {
      var key := CacheKey(id);
      var i := 0;
      while i < |keys|
        invariant i <= |keys| && key !in keys[..i]
      {
        if keys[i] == key {
          return Some(tables[i]);
        }
        i := i + 1;
      }
      o := None;
    }

    method Append(kind: Kind, id: Triple) returns (o: Object)
      requires Valid(State()) && SeparatorFree(id) && Cached(State(), id).None?
      modifies this`keys, this`tables, this`next
      ensures State() == Step(old(State()), Lookup(kind, id))
      ensures Cached(State(), id) == Some(o) && o == Fresh(old(State()), kind, id)
    {
      PushValid(State(), kind, id);
      o := Object(next, kind, id);
      keys, tables, next := keys + [CacheKey(id)], tables + [o], next + 1;
      assert tables[|tables| - 1] == o;
      CachedMeans(State(), id, o);
    }

    /** Find or build an entry under the lock: the information-schema and wildcard lookups. */
    method Materialize(kind: Kind, id: Triple, error: Option<Code>) returns (r: Result<Object>)
      requires Valid(State()) && SeparatorFree(id)
      modifies this`keys, this`tables, this`next
      ensures Valid(State())
      ensures r.Err? ==> State() == old(State()) && Cached(State(), id).None? && error == Some(r.code)
      ensures r.Ok? ==> State() == Step(old(State()), Lookup(kind, id)) && Cached(State(), id) == Some(r.value)
      ensures r.Ok? ==> Cached(old(State()), id).Some? || error.None?
    {
      var hit := Search(id);
      if hit.Some? {
        return Ok(hit.value);
      }
      if error.Some? {
        return Err(error.value);
      }
      var o := Append(kind, id);
      r := Ok(o);
    }

    /**
     Look a table up. `during` are the critical sections other lookups run while the measure columns
     are analysed, when the lock is not held.
     */
    method FindTable(path: seq<string>, b: Backend, during: seq<Action>) returns (r: Result<Found>)
      requires Valid(State()) && forall i | 0 <= i < |during| :: Plain(during[i])
      requires var p := ParseFindTablePath(path, project, defaultDataset);
               p.Ok? ==> SeparatorFree(CacheId(p.value))
      modifies this
      ensures Valid(State())
      ensures var p := ParseFindTablePath(path, project, defaultDataset);
              if p.Err? then r == Err(p.code)
              else if Refusal(old(State()), p.value, b).Some? then r == Err(Refusal(old(State()), p.value, b).value)
              else if ByView(old(State()), p.value, b) then r == Ok(View(b.view(p.value.id).value))
              else r.Ok? && r.value.Table?
      ensures var p := ParseFindTablePath(path, project, defaultDataset);
              State() == if p.Err? then old(State()) else After(old(State()), p.value, b, during)
      // A hit answers with the cached object.
      ensures var p := ParseFindTablePath(path, project, defaultDataset);
              r.Ok? && Cached(old(State()), CacheId(p.value)).Some? ==>
                r.value == Table(Cached(old(State()), CacheId(p.value)).value)
      // The answer is the entry for the requested id, unless its measures failed in another lookup meanwhile.
      ensures var p := ParseFindTablePath(path, project, defaultDataset);
              r.Ok? && r.value.Table? && !Undoes(during, CacheId(p.value)) ==>
                Cached(State(), CacheId(p.value)) == Some(r.value.entry)
      // A refused lookup that ran alone leaves no trace.
      ensures r.Err? && during == [] ==> keys == old(keys) && tables == old(tables)
      ensures r.Err? || r.value.Table? ==> viewKeys == old(viewKeys) && views == old(views)
      ensures r.Ok? && r.value.View? ==>
                var id := ParseFindTablePath(path, project, defaultDataset).value.id;
                viewKeys == old(viewKeys) + [CacheKey(id)] && views == old(views) + [r.value.address]
    {
      var parsed := ParseFindTablePath(path, project, defaultDataset);
      if parsed.Err? {
        return Err(parsed.code);
      }
      var t := parsed.value;
      if t.view != "" {
        if !IsInfoSchemaView(t.view) {
          return Err(NotFound);
        }
        var o := Materialize(InfoSchemaTable, CacheId(t), None);
        return Ok(Table(o.value));
      }
      if Wildcard.IsWildcardTableId(t.id.table) {
        var o := Materialize(WildcardTable, t.id, b.wildcardError(t.id));
        return if o.Ok? then Ok(Table(o.value)) else Err(o.code);
      }
      var hit := Search(t.id);
      if hit.Some? {
        return Ok(Table(hit.value));
      }
      if b.view(t.id).Some? {
        viewKeys, views := viewKeys + [CacheKey(t.id)], views + [b.view(t.id).value];
        return Ok(View(b.view(t.id).value));
      }
      if b.tableError(t.id).Some? {
        return Err(b.tableError(t.id).value);
      }
      r := FindPhysical(t.id, b, during);
    }

    method Undo(id: Triple)
      requires Valid(State())
      modifies this`keys, this`tables
      ensures State() == Rollback(old(State()), id)
    {
      if |keys| > 0 && keys[|keys| - 1] == CacheKey(id) {
        keys, tables := keys[..|keys| - 1], tables[..|tables| - 1];
      }
    }

    /** Other lookups have the lock. */
    method Overlap(during: seq<Action>)
      requires Valid(State()) && forall i | 0 <= i < |during| :: Plain(during[i])
      modifies this`keys, this`tables, this`next
      ensures State() == Run(old(State()), during)
    {
      var c := Run(State(), during);
      keys, tables, next := c.keys, c.tables, c.next;
    }

    /** Build the table, release the lock for the measure columns, and undo when they fail. */
    method FindPhysical(id: Triple, b: Backend, during: seq<Action>) returns (r: Result<Found>)
      requires Valid(State()) && SeparatorFree(id) && Cached(State(), id).None?
      requires forall i | 0 <= i < |during| :: Plain(during[i])
      modifies this`keys, this`tables, this`next
      ensures Valid(State())
      ensures var built := Run(Step(old(State()), Lookup(StorageTable, id)), during);
              if b.measuresError(id).Some? then
                r == Err(b.measuresError(id).value) && State() == Step(built, MeasureFailed(id))
              else
                r == Ok(Table(Fresh(old(State()), StorageTable, id))) && State() == built
      ensures r.Ok? ==> r.value.Table? && (!Undoes(during, id) ==> Cached(State(), id) == Some(r.value.entry))
      ensures r.Err? && during == [] ==> keys == old(keys) && tables == old(tables)
    {
      FailedLookupRestores(State(), id);
      var o := Append(StorageTable, id);
      ghost var built := State();
      Overlap(during);
      if b.measuresError(id).Some? {
        Undo(id);
        return Err(b.measuresError(id).value);
      }
      if !Undoes(during, id) { EntryIsStable(built, during, id, o); }
      r := Ok(Table(o));
    }
  }
}
