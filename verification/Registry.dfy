/**
 The per-project function, table-function and view registries and their replay into catalogs
 (backend/catalog/udf_registry.cc, tvf_registry.cc, view_registry.cc, udf_registration_catalog.cc).
 */
module Registry {
  import opened Basics

  /** A heap object owned by the registry: its address and its routine name. */
  datatype Routine = Routine(address: int, name: string)

  datatype Entry = Entry(dataset: string, routine: Routine)

  /** Replaced and dropped routines are kept in `retired`, never freed. */
  datatype Bucket = Bucket(live: seq<Entry>, retired: seq<Routine>)

  const EMPTY := Bucket([], [])

  datatype Flavour = Functions | Tvfs | Views

  predicate Named(e: Entry, name: string) {
    EqualsIgnoreCase(e.routine.name, name)
  }

  /** Whether registering `name` in `dataset` replaces the live entry. */
  predicate Replaces(fl: Flavour, e: Entry, dataset: string, name: string) {
    Named(e, name) &&
    match fl
    case Functions => dataset == "" || e.dataset == "" || EqualsIgnoreCase(e.dataset, dataset)
    case Tvfs => true
    case Views => dataset == "" || EqualsIgnoreCase(e.dataset, dataset)
  }

  /** Whether a lookup of `name` in `dataset` accepts the live entry. */
  predicate Answers(e: Entry, dataset: string, name: string) {
    Named(e, name) && (dataset == "" || e.dataset == "" || EqualsIgnoreCase(e.dataset, dataset))
  }

  // ----- One bucket, as values -----

  function FirstReplaced(fl: Flavour, live: seq<Entry>, dataset: string, name: string): (i: nat)
    ensures i <= |live|
    ensures forall k | 0 <= k < i :: !Replaces(fl, live[k], dataset, name)
    ensures i < |live| ==> Replaces(fl, live[i], dataset, name)
  {
    if live == [] || Replaces(fl, live[0], dataset, name) then 0
    else 1 + FirstReplaced(fl, live[1..], dataset, name)
  }

  function FirstNamed(live: seq<Entry>, name: string): (i: nat)
    ensures i <= |live|
    ensures forall k | 0 <= k < i :: !Named(live[k], name)
    ensures i < |live| ==> Named(live[i], name)
  {
    if live == [] || Named(live[0], name) then 0 else 1 + FirstNamed(live[1..], name)
  }

  /** Moves the entry at `i` to the retired list; `i == |live|` retires nothing. */
  function Retire(b: Bucket, i: nat): Bucket
    requires i <= |b.live|
  {
    if i == |b.live| then b
    else Bucket(b.live[..i] + b.live[i + 1..], b.retired + [b.live[i].routine])
  }

  function RegisterIn(fl: Flavour, b: Bucket, dataset: string, r: Routine): Bucket {
    var b' := Retire(b, FirstReplaced(fl, b.live, dataset, r.name));
    b'.(live := b'.live + [Entry(dataset, r)])
  }

  function DropIn(b: Bucket, name: string): Bucket {
    Retire(b, FirstNamed(b.live, name))
  }

  function FindIn(live: seq<Entry>, dataset: string, name: string): Option<Routine> {
    if live == [] then None
    else if Answers(live[0], dataset, name) then Some(live[0].routine)
    else FindIn(live[1..], dataset, name)
  }

  // ----- Catalogs -----

  /** A catalog maps lower-cased names to routines. */
  type Entries = map<string, Routine>

  predicate NameKeyed(m: Entries) {
    forall k | k in m :: Lower(m[k].name) == k
  }

  /** The last live routine of a lower-cased name. */
  function Last(live: seq<Entry>, key: string): Option<Routine> {
    if live == [] then None
    else if Lower(live[|live| - 1].routine.name) == key then Some(live[|live| - 1].routine)
    else Last(live[..|live| - 1], key)
  }

  function LiveNames(live: seq<Entry>): set<string> {
    set i | 0 <= i < |live| :: Lower(live[i].routine.name)
  }

  // A key is a routine's own name or an alias of it, so a key and the name under it may differ.

  /** The catalog once retired routines are swept out. */
  function Purged(b: Bucket, m: Entries): Entries {
    map k | k in m && m[k] !in b.retired :: m[k]
  }

  /** Whether some live routine of that name is not the one the swept catalog has under it. */
  predicate Displaces(p: Entries, live: seq<Entry>, name: string) {
    exists j :: 0 <= j < |live| && DisplacesAt(p, live[j], name)
  }

  predicate DisplacesAt(p: Entries, e: Entry, name: string) {
    Lower(e.routine.name) == name && !(name in p && p[name] == e.routine)
  }

  /** A key stays unless routines of the name under it are displaced, which takes its aliases along. */
  predicate Stays(p: Entries, live: seq<Entry>, k: string) {
    k in p && !Displaces(p, live, Lower(p[k].name))
  }

  /** What a swept catalog must hold once the live routines are in, said without reference to the loop. */
  function Pointed(p: Entries, live: seq<Entry>): Entries {
    map k | k in p.Keys + LiveNames(live) && (Last(live, k).Some? || Stays(p, live, k)) ::
      match Last(live, k) case Some(r) => r case None => p[k]
  }

  function Replayed(b: Bucket, m: Entries): Entries {
    Pointed(Purged(b, m), b.live)
  }

  /** The key of live entry `i` is no other routine's alias, or that alias went before. */
  predicate Clear(p: Entries, live: seq<Entry>, i: nat)
    requires i < |live|
  {
    var key := Lower(live[i].routine.name);
    key !in p || Lower(p[key].name) == key || Displaces(p, live[..i], Lower(p[key].name))
  }

  predicate AllClear(p: Entries, live: seq<Entry>) {
    forall i | 0 <= i < |live| :: Clear(p, live, i)
  }

  /** Whether replay gets through: no Add meets a key that is taken. */
  predicate Replayable(b: Bucket, m: Entries) {
    AllClear(Purged(b, m), b.live)
  }

  lemma {:induction false} LastIsLive(live: seq<Entry>, key: string)
    ensures Last(live, key).Some? <==> key in LiveNames(live)
    ensures Last(live, key).Some? ==>
              && Lower(Last(live, key).value.name) == key
              && exists i :: 0 <= i < |live| && live[i].routine == Last(live, key).value
  {
    if live != [] {
      var rest := live[..|live| - 1];
      LastIsLive(rest, key);
      if key in LiveNames(live) && Lower(live[|live| - 1].routine.name) != key {
        var i :| 0 <= i < |live| && Lower(live[i].routine.name) == key;
        assert rest[i] == live[i];
      }
      if Last(rest, key).Some? {
        var i :| 0 <= i < |rest| && rest[i].routine == Last(rest, key).value;
        assert live[i] == rest[i];
      }
    }
  }

  /** The entries of a catalog whose routine has another name. */
  function Unnamed(m: Entries, name: string): Entries {
    map k | k in m && Lower(m[k].name) != Lower(name) :: m[k]
  }

  class SimpleCatalog {
    var functions: Entries

    constructor (builtins: Entries)
      ensures functions == builtins
    {
      functions := builtins;
    }

    /** A duplicate key ends the process: `ok` is false. */
    method AddFunction(r: Routine) returns (ok: bool)
      modifies this
      ensures ok <==> Lower(r.name) !in old(functions)
      ensures functions == if ok then old(functions)[Lower(r.name) := r] else old(functions)
    {
      ok := Lower(r.name) !in functions;
      if ok { functions := functions[Lower(r.name) := r]; }
    }

    method RemoveRoutines(gone: set<Routine>)
      modifies this
      ensures functions == map k | k in old(functions) && old(functions)[k] !in gone :: old(functions)[k]
    {
      functions := map k | k in functions && functions[k] !in gone :: functions[k];
    }

    /** Goes by the routine's name, not by the key. */
    method RemoveNamed(name: string)
      modifies this
      ensures functions == Unnamed(old(functions), name)
    {
      functions := map k | k in functions && !EqualsIgnoreCase(functions[k].name, name) :: functions[k];
    }

    /** Point the name at `r`; the Add meets a taken key exactly when the key is another routine's alias. */
    method Replace(r: Routine) returns (ok: bool)
      modifies this
      ensures var key := Lower(r.name);
              ok <==> key !in old(functions) || Lower(old(functions)[key].name) == key
      ensures ok ==> functions == PointAt(old(functions), r)
    {
      var key := Lower(r.name);
      ok := true;
      if !(key in functions && functions[key] == r) {
        RemoveNamed(r.name);
        ok := AddFunction(r);
      }
    }
  }

  function PointAt(m: Entries, r: Routine): Entries {
    var key := Lower(r.name);
    if key in m && m[key] == r then m else Unnamed(m, r.name)[key := r]
  }

  // ----- The registry object -----

  class ProjectRegistry {
    const flavour: Flavour
    var byProject: map<string, Bucket>

    constructor (fl: Flavour)
      ensures flavour == fl && byProject == map[]
    {
      flavour, byProject := fl, map[];
    }

    function BucketOf(project: string): Bucket
      reads this
    {
      if project in byProject then byProject[project] else EMPTY
    }

    method Register(project: string, dataset: string, r: Option<Routine>) returns (status: Result<()>)
      modifies this
      ensures status == if project == "" || r.None? then Err(InvalidArgument) else Ok(())
      ensures byProject == if status.Err? then old(byProject)
                           else old(byProject)[project := RegisterIn(flavour, old(BucketOf(project)), dataset, r.value)]
    {
      if project == "" || r.None? { return Err(InvalidArgument); }
      var b := BucketOf(project);
      var i := 0;
      while i < |b.live| && !Replaces(flavour, b.live[i], dataset, r.value.name)
        invariant 0 <= i <= |b.live|
        invariant forall k | 0 <= k < i :: !Replaces(flavour, b.live[k], dataset, r.value.name)
      {
        i := i + 1;
      }
      var live, retired := b.live, b.retired;
      if i < |live| {
        retired := retired + [live[i].routine];
        live := live[..i] + live[i + 1..];
      }
      byProject := byProject[project := Bucket(live + [Entry(dataset, r.value)], retired)];
      status := Ok(());
    }

    method Drop(project: string, name: string) returns (status: Result<()>)
      modifies this
      ensures status == if project == "" || name == "" then Err(InvalidArgument)
                        else if exists e :: e in old(BucketOf(project)).live && Named(e, name) then Ok(())
                        else Err(NotFound)
      ensures byProject == if status.Err? then old(byProject)
                           else old(byProject)[project := DropIn(old(BucketOf(project)), name)]
    {
      if project == "" || name == "" { return Err(InvalidArgument); }
      if project !in byProject { return Err(NotFound); }
      var b := byProject[project];
      var i := 0;
      while i < |b.live|
        invariant 0 <= i <= |b.live|
        invariant forall k | 0 <= k < i :: !Named(b.live[k], name)
      {
        if Named(b.live[i], name) {
          assert b.live[i] in b.live && FirstNamed(b.live, name) == i;
          byProject := byProject[project := Bucket(b.live[..i] + b.live[i + 1..], b.retired + [b.live[i].routine])];
          return Ok(());
        }
        i := i + 1;
      }
      status := Err(NotFound);
    }

    method Find(project: string, dataset: string, name: string) returns (r: Option<Routine>)
      ensures r == if project == "" || name == "" then None else FindIn(BucketOf(project).live, dataset, name)
    {
      if project == "" || name == "" || project !in byProject { return None; }
      var live := byProject[project].live;
      var i := 0;
      assert live[0..] == live;
      while i < |live|
        invariant 0 <= i <= |live|
        invariant FindIn(live[i..], dataset, name) == FindIn(live, dataset, name)
      {
        if Answers(live[i], dataset, name) { return Some(live[i].routine); }
        assert live[i..][1..] == live[i + 1..];
        i := i + 1;
      }
      r := None;
    }

    /** One turn of the replay loop. */
    method ReplayOne(catalog: SimpleCatalog, ghost p: Entries, live: seq<Entry>, i: nat) returns (ok: bool)
      requires i < |live| && (forall j | 0 <= j < i :: Clear(p, live, j)) && catalog.functions == Pointed(p, live[..i])
      modifies catalog
      ensures ok <==> Clear(p, live, i)
      ensures ok ==> catalog.functions == Pointed(p, live[..i + 1])
    {
      FreeIffClear(p, live, i);
      PointedStep(p, live, i);
      ok := catalog.Replace(live[i].routine);
    }

    method ReplayLive(catalog: SimpleCatalog, live: seq<Entry>) returns (ok: bool)
      modifies catalog
      ensures ok <==> AllClear(old(catalog.functions), live)
      ensures ok ==> catalog.functions == Pointed(old(catalog.functions), live)
    {
      ghost var p := catalog.functions;
      PointedNothing(p);
      assert live[..0] == [];
      var i := 0;
      while i < |live|
        invariant 0 <= i <= |live|
        invariant forall j | 0 <= j < i :: Clear(p, live, j)
        invariant catalog.functions == Pointed(p, live[..i])
      {
        ok := ReplayOne(catalog, p, live, i);
        if !ok { return; }
        i := i + 1;
      }
      assert live[..i] == live;
      ok := true;
    }

    /** `ok` is false when the process ends on a duplicate key. */
    method ReplayIntoCatalog(project: string, catalog: SimpleCatalog) returns (ok: bool)
      modifies catalog
      ensures ok <==> Replayable(BucketOf(project), old(catalog.functions))
      ensures ok ==> catalog.functions == Replayed(BucketOf(project), old(catalog.functions))
    {
      if project !in byProject {
        PointedNothing(catalog.functions);
        return true;
      }
      var b := byProject[project];
      ghost var p := Purged(b, catalog.functions);
      if b.retired != [] { catalog.RemoveRoutines(set r | r in b.retired); }
      assert catalog.functions == p;
      ok := ReplayLive(catalog, b.live);
    }
  }

  // ----- The replay loop against its closed form -----

  lemma PointedNothing(p: Entries)
    ensures Pointed(p, []) == p && Purged(EMPTY, p) == p
  {
  }

  /** One more live entry displaces its own name at most. */
  lemma DisplacesSnoc(p: Entries, live: seq<Entry>, e: Entry, name: string)
    ensures Displaces(p, live + [e], name) <==> Displaces(p, live, name) || DisplacesAt(p, e, name)
  {
    var longer := live + [e];
    assert longer[|live|] == e && forall j | 0 <= j < |live| :: longer[j] == live[j];
    if Displaces(p, live, name) {
      var j :| 0 <= j < |live| && DisplacesAt(p, live[j], name);
      assert DisplacesAt(p, longer[j], name);
    }
  }

  lemma LastSnoc(live: seq<Entry>, e: Entry, key: string)
    ensures Last(live + [e], key) == if Lower(e.routine.name) == key then Some(e.routine) else Last(live, key)
    ensures key in LiveNames(live + [e]) <==> key in LiveNames(live) || key == Lower(e.routine.name)
  {
    var longer := live + [e];
    assert longer[..|longer| - 1] == live && longer[|longer| - 1] == e;
    LastIsLive(live, key);
    LastIsLive(longer, key);
  }

  /** A live name that is clear stays clear for later entries of that name. */
  lemma ClearLater(p: Entries, live: seq<Entry>, j: nat, i: nat)
    requires j < i < |live| && Lower(live[j].routine.name) == Lower(live[i].routine.name) && Clear(p, live, j)
    ensures Clear(p, live, i)
  {
    var key := Lower(live[i].routine.name);
    if key in p && Displaces(p, live[..j], Lower(p[key].name)) {
      var k :| 0 <= k < j && DisplacesAt(p, live[..j][k], Lower(p[key].name));
      assert live[..i][k] == live[..j][k];
    }
  }

  /** What the Add finds: its key is free exactly when the entry is clear. */
  lemma FreeIffClear(p: Entries, live: seq<Entry>, i: nat)
    requires i < |live| && forall j | 0 <= j < i :: Clear(p, live, j)
    ensures var m, key := Pointed(p, live[..i]), Lower(live[i].routine.name);
            key !in m || Lower(m[key].name) == key <==> Clear(p, live, i)
  {
    var key := Lower(live[i].routine.name);
    LastIsLive(live[..i], key);
    if Last(live[..i], key).Some? {
      var j :| 0 <= j < i && Lower(live[..i][j].routine.name) == key;
      ClearLater(p, live, j, i);
    }
  }

  /** Under a name whose routine is not yet the one there, everything of that name is displaced. */
  lemma StaleIsDisplaced(p: Entries, live: seq<Entry>, r: Routine)
    requires var key := Lower(r.name); !(key in Pointed(p, live) && Pointed(p, live)[key] == r)
    ensures var key := Lower(r.name);
            Displaces(p, live, key) || !(key in p && p[key] == r)
  {
    var key := Lower(r.name);
    LastIsLive(live, key);
    if Last(live, key).Some? && key in p && p[key] == r {
      var j :| 0 <= j < |live| && live[j].routine == Last(live, key).value;
      assert DisplacesAt(p, live[j], key);
    }
  }

  /** Where the routine is already there, the entry displaces nothing new. */
  lemma PresentAddsNothing(p: Entries, live: seq<Entry>, r: Routine)
    requires var key := Lower(r.name); key in Pointed(p, live) && Pointed(p, live)[key] == r
    ensures var key := Lower(r.name);
            Displaces(p, live, key) || (key in p && p[key] == r)
  {
    var key := Lower(r.name);
    LastIsLive(live, key);
    if Last(live, key).Some? && !(key in p && p[key] == r) {
      var j :| 0 <= j < |live| && live[j].routine == Last(live, key).value;
      assert DisplacesAt(p, live[j], key);
    }
  }

  function At(m: Entries, k: string): Option<Routine> {
    if k in m then Some(m[k]) else None
  }

  lemma SameEntries(m: Entries, m': Entries)
    requires forall k :: At(m, k) == At(m', k)
    ensures m == m'
  {
    forall k ensures k in m <==> k in m' && (k in m ==> m[k] == m'[k]) {
      assert At(m, k) == At(m', k);
    }
  }

  lemma KeyStep(p: Entries, live: seq<Entry>, e: Entry, k: string)
    ensures At(Pointed(p, live + [e]), k) == At(PointAt(Pointed(p, live), e.routine), k)
  {
    var m, key := Pointed(p, live), Lower(e.routine.name);
    LastSnoc(live, e, k);
    LastIsLive(live, k);
    if k != key && Last(live, k).None? && k in p {
      DisplacesSnoc(p, live, e, Lower(p[k].name));
      if key in m && m[key] == e.routine {
        PresentAddsNothing(p, live, e.routine);
      } else {
        StaleIsDisplaced(p, live, e.routine);
      }
    }
  }

  lemma PointedStep(p: Entries, live: seq<Entry>, i: nat)
    requires i < |live|
    ensures Pointed(p, live[..i + 1]) == PointAt(Pointed(p, live[..i]), live[i].routine)
  {
    assert live[..i + 1] == live[..i] + [live[i]];
    forall k ensures At(Pointed(p, live[..i + 1]), k) == At(PointAt(Pointed(p, live[..i]), live[i].routine), k) {
      KeyStep(p, live[..i], live[i], k);
    }
    SameEntries(Pointed(p, live[..i + 1]), PointAt(Pointed(p, live[..i]), live[i].routine));
  }

  // ----- Catalogs without aliases -----

  /** Where every key is its routine's own name, replay always gets through and only touches live names. */
  lemma NameKeyedReplays(b: Bucket, m: Entries)
    requires NameKeyed(m)
    ensures Replayable(b, m) && NameKeyed(Replayed(b, m))
    ensures forall k | k !in LiveNames(b.live) :: At(Replayed(b, m), k) == At(Purged(b, m), k)
  {
    var p := Purged(b, m);
    forall k
      ensures k in Replayed(b, m) ==> Lower(Replayed(b, m)[k].name) == k
      ensures k !in LiveNames(b.live) ==> At(Replayed(b, m), k) == At(p, k)
    {
      LastIsLive(b.live, k);
    }
  }

  /** A routine whose name is another routine's alias cannot be replayed. */
  lemma AliasBlocksReplay(dataset: string, r: Routine, builtin: Routine)
    requires Lower(builtin.name) != Lower(r.name)
    ensures !Replayable(Bucket([Entry(dataset, r)], []), map[Lower(r.name) := builtin])
  {
    var b, m := Bucket([Entry(dataset, r)], []), map[Lower(r.name) := builtin];
    assert Purged(b, m) == m && b.live[..0] == [];
    assert !Clear(m, b.live, 0);
  }
}
