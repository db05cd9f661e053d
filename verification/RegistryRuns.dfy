/**
 What holds over every run of registrations, drops and replays of one registry and any number of
 catalogs (backend/catalog/udf_registry.cc, tvf_registry.cc, view_registry.cc).
 */
module RegistryRuns {
  import opened Basics
  import opened Registry

  datatype Action =
    | Register(project: string, dataset: string, routine: Routine)
    | Drop(project: string, name: string)
    | Replay(project: string, catalog: nat)

  /** `died` once a replay met a duplicate key; nothing happens after that. */
  datatype World = World(byProject: map<string, Bucket>, catalogs: map<nat, Entries>, died: bool)

  function BucketAt(w: World, project: string): Bucket {
    if project in w.byProject then w.byProject[project] else EMPTY
  }

  /** One call of the registry's methods. */
  function Step(fl: Flavour, w: World, a: Action): World {
    if w.died then w
    else match a
    case Register(p, dataset, r) =>
      if p == "" then w else w.(byProject := w.byProject[p := RegisterIn(fl, BucketAt(w, p), dataset, r)])
    case Drop(p, name) =>
      if p == "" || name == "" || FirstNamed(BucketAt(w, p).live, name) == |BucketAt(w, p).live| then w
      else w.(byProject := w.byProject[p := DropIn(BucketAt(w, p), name)])
    case Replay(p, c) =>
      if c !in w.catalogs then w
      else if !Replayable(BucketAt(w, p), w.catalogs[c]) then w.(died := true)
      else w.(catalogs := w.catalogs[c := Replayed(BucketAt(w, p), w.catalogs[c])])
  }

  function Run(fl: Flavour, catalogs: map<nat, Entries>, actions: seq<Action>): World {
    if actions == [] then World(map[], catalogs, false)
    else Step(fl, Run(fl, catalogs, actions[..|actions| - 1]), actions[|actions| - 1])
  }

  // ----- Ownership -----

  function Routines(live: seq<Entry>): seq<Routine> {
    seq(|live|, i requires 0 <= i < |live| => live[i].routine)
  }

  function Owned(b: Bucket): multiset<Routine> {
    multiset(Routines(b.live)) + multiset(b.retired)
  }

  /** Every routine successfully registered for a project, with repetitions. */
  function Registered(actions: seq<Action>, project: string): multiset<Routine> {
    if actions == [] then multiset{}
    else Registered(actions[..|actions| - 1], project) + Gain(actions[|actions| - 1], project)
  }

  function Gain(a: Action, project: string): multiset<Routine> {
    if a.Register? && a.project == project != "" then multiset{a.routine} else multiset{}
  }

  lemma RetireConserves(b: Bucket, i: nat)
    requires i <= |b.live|
    ensures Owned(Retire(b, i)) == Owned(b)
  {
    if i < |b.live| {
      var before, after := b.live[..i], b.live[i + 1..];
      assert b.live == before + [b.live[i]] + after;
      assert Routines(b.live) == Routines(before) + [b.live[i].routine] + Routines(after);
      assert Routines(before + after) == Routines(before) + Routines(after);
    }
  }

  lemma RegisterConserves(fl: Flavour, b: Bucket, dataset: string, r: Routine)
    ensures Owned(RegisterIn(fl, b, dataset, r)) == Owned(b) + multiset{r}
  {
    var i := FirstReplaced(fl, b.live, dataset, r.name);
    RetireConserves(b, i);
    assert Routines(Retire(b, i).live + [Entry(dataset, r)]) == Routines(Retire(b, i).live) + [r];
  }

  /** A step touches only the bucket it names. */
  lemma StepBucket(fl: Flavour, w: World, a: Action, project: string)
    requires !w.died
    ensures var b := BucketAt(w, project);
            BucketAt(Step(fl, w, a), project) ==
            if a.Register? && a.project == project != "" then RegisterIn(fl, b, a.dataset, a.routine)
            else if a.Drop? && a.project == project != "" && a.name != "" then DropIn(b, a.name)
            else b
  {
  }

  lemma StepOwned(fl: Flavour, w: World, a: Action, project: string)
    requires !w.died
    ensures Owned(BucketAt(Step(fl, w, a), project)) == Owned(BucketAt(w, project)) + Gain(a, project)
  {
    StepBucket(fl, w, a, project);
    var b := BucketAt(w, project);
    if a.Register? {
      RegisterConserves(fl, b, a.dataset, a.routine);
    } else if a.Drop? {
      RetireConserves(b, FirstNamed(b.live, a.name));
    }
  }

  /** Live plus retired is exactly what was ever registered: nothing is freed, nothing is owned twice. */
  lemma {:induction false} OwnershipConserved(fl: Flavour, catalogs: map<nat, Entries>, actions: seq<Action>,
                                              project: string)
    requires !Run(fl, catalogs, actions).died
    ensures Owned(BucketAt(Run(fl, catalogs, actions), project)) == Registered(actions, project)
  {
    if actions == [] {
      assert Routines([]) == [];
    } else {
      var prefix := actions[..|actions| - 1];
      OwnershipConserved(fl, catalogs, prefix, project);
      StepOwned(fl, Run(fl, catalogs, prefix), actions[|actions| - 1], project);
    }
  }

  /** A routine a catalog may point at: one it started with, or one some project still owns. */
  ghost predicate Alive(initial: Entries, w: World, r: Routine) {
    (exists k :: k in initial && initial[k] == r) || exists p :: r in Owned(BucketAt(w, p))
  }

  lemma ReplayedValues(b: Bucket, m: Entries, k: string)
    requires k in Replayed(b, m)
    ensures (k in m && Replayed(b, m)[k] == m[k]) || Replayed(b, m)[k] in Owned(b)
  {
    LastIsLive(b.live, k);
    if Last(b.live, k).Some? {
      var i :| 0 <= i < |b.live| && b.live[i].routine == Last(b.live, k).value;
      assert Routines(b.live)[i] == b.live[i].routine;
    }
  }

  lemma AliveStays(fl: Flavour, initial: Entries, w: World, a: Action, r: Routine)
    requires Alive(initial, w, r)
    ensures Alive(initial, Step(fl, w, a), r)
  {
    if p :| r in Owned(BucketAt(w, p)) && !w.died {
      StepOwned(fl, w, a, p);
      assert r in Owned(BucketAt(Step(fl, w, a), p));
    }
  }

  ghost predicate Sound(initial: Entries, w: World, m: Entries) {
    forall k | k in m :: Alive(initial, w, m[k]) && (NameKeyed(initial) ==> Lower(m[k].name) == k)
  }

  lemma SoundStays(fl: Flavour, initial: Entries, w: World, a: Action, m: Entries)
    requires Sound(initial, w, m)
    ensures Sound(initial, Step(fl, w, a), m)
  {
    forall k | k in m ensures Alive(initial, Step(fl, w, a), m[k]) { AliveStays(fl, initial, w, a, m[k]); }
  }

  lemma ReplayStaysSound(initial: Entries, w: World, m: Entries, p: string)
    requires Sound(initial, w, m)
    ensures Sound(initial, w, Replayed(BucketAt(w, p), m))
  {
    var b := BucketAt(w, p);
    forall k | k in Replayed(b, m)
      ensures Alive(initial, w, Replayed(b, m)[k]) && (NameKeyed(initial) ==> Lower(Replayed(b, m)[k].name) == k)
    {
      ReplayedValues(b, m, k);
      LastIsLive(b.live, k);
    }
  }

  /** No catalog ever dangles: every pointer in it is one it began with or still owned, and keys stay names. */
  lemma {:induction false} CatalogsNeverDangle(fl: Flavour, catalogs: map<nat, Entries>, actions: seq<Action>, c: nat)
    requires c in catalogs
    ensures var w := Run(fl, catalogs, actions);
            c in w.catalogs && Sound(catalogs[c], w, w.catalogs[c])
  {
    if actions != [] {
      var prefix, a := actions[..|actions| - 1], actions[|actions| - 1];
      CatalogsNeverDangle(fl, catalogs, prefix, c);
      StepStaysSound(fl, catalogs[c], Run(fl, catalogs, prefix), a, c);
    }
  }

  lemma StepStaysSound(fl: Flavour, initial: Entries, w: World, a: Action, c: nat)
    requires c in w.catalogs && Sound(initial, w, w.catalogs[c])
    ensures var w' := Step(fl, w, a);
            c in w'.catalogs && Sound(initial, w', w'.catalogs[c])
  {
    StepCatalog(fl, w, a, c);
    if a.Replay? && a.catalog == c { ReplayStaysSound(initial, w, w.catalogs[c], a.project); }
    SoundStays(fl, initial, w, a, Step(fl, w, a).catalogs[c]);
  }

  /** Only a replay into it changes a catalog. */
  lemma StepCatalog(fl: Flavour, w: World, a: Action, c: nat)
    requires c in w.catalogs
    ensures c in Step(fl, w, a).catalogs
    ensures Step(fl, w, a).catalogs[c] ==
            if a.Replay? && a.catalog == c && !Step(fl, w, a).died then Replayed(BucketAt(w, a.project), w.catalogs[c])
            else w.catalogs[c]
  {
  }

  /** Catalogs whose keys are all routine names never end the process. */
  lemma {:induction false} NeverDies(fl: Flavour, catalogs: map<nat, Entries>, actions: seq<Action>)
    requires forall c | c in catalogs :: NameKeyed(catalogs[c])
    ensures var w := Run(fl, catalogs, actions);
            !w.died && w.catalogs.Keys == catalogs.Keys && forall c | c in w.catalogs :: NameKeyed(w.catalogs[c])
  {
    if actions != [] {
      var prefix, a := actions[..|actions| - 1], actions[|actions| - 1];
      NeverDies(fl, catalogs, prefix);
      var w := Run(fl, catalogs, prefix);
      if a.Replay? && a.catalog in w.catalogs { NameKeyedReplays(BucketAt(w, a.project), w.catalogs[a.catalog]); }
    }
  }

  // ----- Agreement after replay -----

  /** No routine object is registered twice, as unique ownership guarantees. */
  predicate Fresh(owned: multiset<Routine>) {
    forall r | r in owned :: owned[r] == 1
  }

  /** `m'` is what `m` should become when the bucket is replayed into it. */
  ghost predicate Agrees(b: Bucket, m: Entries, m': Entries) {
    && (forall k | k in LiveNames(b.live) :: At(m', k) == Last(b.live, k))
    && (forall k | k in m' :: m'[k] !in b.retired)
    && (forall k | k !in LiveNames(b.live) :: At(m', k) == if Stays(Purged(b, m), b.live, k) then Some(m[k]) else None)
  }

  /**
   After replay each live name maps to its last live routine, nothing points at a retired one, a key that is
   no live name keeps its routine unless that was swept or is an alias whose name was displaced, and
   replaying again gets through and changes nothing.
   */
  lemma ReplayAgrees(b: Bucket, m: Entries)
    requires Fresh(Owned(b))
    ensures Agrees(b, m, Replayed(b, m))
    ensures Replayable(b, Replayed(b, m)) && Replayed(b, Replayed(b, m)) == Replayed(b, m)
  {
    var m' := Replayed(b, m);
    forall k
      ensures k in LiveNames(b.live) ==> At(m', k) == Last(b.live, k)
      ensures k in m' ==> m'[k] !in b.retired
      ensures k !in LiveNames(b.live) ==> At(m', k) == if Stays(Purged(b, m), b.live, k) then Some(m[k]) else None
    {
      LastIsLive(b.live, k);
      if Last(b.live, k).Some? {
        var i :| 0 <= i < |b.live| && b.live[i].routine == Last(b.live, k).value;
        LiveNotRetired(b, i);
      }
    }
    assert Purged(b, m') == m';
    forall k ensures At(Pointed(m', b.live), k) == At(m', k) { SettledKey(Purged(b, m), b.live, k); }
    SameEntries(Pointed(m', b.live), m');
    forall i | 0 <= i < |b.live| ensures Clear(m', b.live, i) {
      var key := Lower(b.live[i].routine.name);
      LastIsLive(b.live, key);
      assert key in LiveNames(b.live);
    }
  }

  /** Once the live routines are in, putting them in again changes no key. */
  lemma SettledKey(p: Entries, live: seq<Entry>, k: string)
    ensures var m := Pointed(p, live); At(Pointed(m, live), k) == At(m, k)
  {
    var m := Pointed(p, live);
    LastIsLive(live, k);
    if Last(live, k).None? && k in m {
      var name := Lower(p[k].name);
      if Displaces(m, live, name) {
        var j :| 0 <= j < |live| && DisplacesAt(m, live[j], name);
        AllTheSame(p, live, name, j);
      }
    }
  }

  /** When nothing of a name is displaced, all its live routines are the one already there. */
  lemma AllTheSame(p: Entries, live: seq<Entry>, name: string, j: nat)
    requires !Displaces(p, live, name) && j < |live| && Lower(live[j].routine.name) == name
    ensures var m := Pointed(p, live); name in m && m[name] == live[j].routine
  {
    assert !DisplacesAt(p, live[j], name);
    LastIsLive(live, name);
    assert name in LiveNames(live);
    var i :| 0 <= i < |live| && live[i].routine == Last(live, name).value;
    assert !DisplacesAt(p, live[i], name);
  }

  lemma LiveNotRetired(b: Bucket, i: nat)
    requires Fresh(Owned(b)) && i < |b.live|
    ensures b.live[i].routine !in b.retired
  {
    var r := b.live[i].routine;
    assert Routines(b.live)[i] == r && r in multiset(Routines(b.live));
    assert Owned(b)[r] == 1;
    assert multiset(b.retired)[r] == 0;
  }

  /** The same of the last action of every run that gets that far. */
  lemma ReplayEndsInAgreement(fl: Flavour, catalogs: map<nat, Entries>, actions: seq<Action>, project: string, c: nat)
    requires c in catalogs && Fresh(Registered(actions, project))
    requires !Run(fl, catalogs, actions + [Replay(project, c)]).died
    ensures var before := Run(fl, catalogs, actions);
            var w := Run(fl, catalogs, actions + [Replay(project, c)]);
            var b := BucketAt(w, project);
            && c in before.catalogs && c in w.catalogs
            && Agrees(b, before.catalogs[c], w.catalogs[c])
            && (forall d | d in before.catalogs && d != c :: d in w.catalogs && w.catalogs[d] == before.catalogs[d])
            && Run(fl, catalogs, actions + [Replay(project, c)] + [Replay(project, c)]) == w
  {
    RunSnoc(fl, catalogs, actions, Replay(project, c));
    RunSnoc(fl, catalogs, actions + [Replay(project, c)], Replay(project, c));
    CatalogsNeverDangle(fl, catalogs, actions, c);
    OwnershipConserved(fl, catalogs, actions, project);
    ReplayStepAgrees(fl, Run(fl, catalogs, actions), project, c);
  }

  lemma RunSnoc(fl: Flavour, catalogs: map<nat, Entries>, actions: seq<Action>, a: Action)
    ensures Run(fl, catalogs, actions + [a]) == Step(fl, Run(fl, catalogs, actions), a)
  {
    var more := actions + [a];
    assert more[..|more| - 1] == actions && more[|more| - 1] == a;
  }

  lemma ReplayStepAgrees(fl: Flavour, w: World, project: string, c: nat)
    requires c in w.catalogs && Fresh(Owned(BucketAt(w, project))) && !Step(fl, w, Replay(project, c)).died
    ensures var w' := Step(fl, w, Replay(project, c));
            && BucketAt(w', project) == BucketAt(w, project)
            && c in w'.catalogs && Agrees(BucketAt(w, project), w.catalogs[c], w'.catalogs[c])
            && (forall d | d in w.catalogs && d != c :: d in w'.catalogs && w'.catalogs[d] == w.catalogs[d])
            && Step(fl, w', Replay(project, c)) == w'
  {
    var w' := Step(fl, w, Replay(project, c));
    ReplayAgrees(BucketAt(w, project), w.catalogs[c]);
    assert w'.catalogs[c := w'.catalogs[c]] == w'.catalogs;
  }

  // ----- The registry's methods against the runs -----

  ghost function Contents(catalogs: map<nat, SimpleCatalog>): map<nat, Entries>
    reads catalogs.Values
  {
    map c | c in catalogs :: catalogs[c].functions
  }

  /** The registry object, called action by action, goes through exactly these runs. */
  method Drive(registry: ProjectRegistry, catalogs: map<nat, SimpleCatalog>, actions: seq<Action>) returns (ok: bool)
    requires registry.byProject == map[]
    requires forall c, d | c in catalogs && d in catalogs && c != d :: catalogs[c] != catalogs[d]
    modifies registry, catalogs.Values
    ensures ok <==> !Run(registry.flavour, old(Contents(catalogs)), actions).died
    ensures ok ==> Run(registry.flavour, old(Contents(catalogs)), actions) ==
                   World(registry.byProject, Contents(catalogs), false)
  {
    ghost var initial := Contents(catalogs);
    var i := 0;
    assert actions[..0] == [];
    while i < |actions|
      invariant 0 <= i <= |actions|
      invariant Run(registry.flavour, initial, actions[..i]) == World(registry.byProject, Contents(catalogs), false)
    {
      ghost var w := World(registry.byProject, Contents(catalogs), false);
      assert actions[..i + 1] == actions[..i] + [actions[i]];
      RunSnoc(registry.flavour, initial, actions[..i], actions[i]);
      ok := Perform(registry, catalogs, actions[i]);
      if !ok {
        DeadStaysDead(registry.flavour, initial, actions, i + 1);
        return;
      }
      i := i + 1;
    }
    assert actions[..i] == actions;
    ok := true;
  }

  method Perform(registry: ProjectRegistry, catalogs: map<nat, SimpleCatalog>, a: Action) returns (ok: bool)
    requires forall c, d | c in catalogs && d in catalogs && c != d :: catalogs[c] != catalogs[d]
    modifies registry, catalogs.Values
    ensures var w := World(old(registry.byProject), old(Contents(catalogs)), false);
            && (ok <==> !Step(registry.flavour, w, a).died)
            && (ok ==> Step(registry.flavour, w, a) == World(registry.byProject, Contents(catalogs), false))
  {
    ok := true;
    match a
    case Register(project, dataset, routine) =>
      var _ := registry.Register(project, dataset, Some(routine));
    case Drop(project, name) =>
      var _ := registry.Drop(project, name);
    case Replay(project, c) =>
      if c in catalogs { ok := registry.ReplayIntoCatalog(project, catalogs[c]); }
  }

  lemma {:induction false} DeadStaysDead(fl: Flavour, catalogs: map<nat, Entries>, actions: seq<Action>, n: nat)
    requires n <= |actions| && Run(fl, catalogs, actions[..n]).died
    ensures Run(fl, catalogs, actions).died
    decreases |actions|
  {
    if n == |actions| {
      assert actions[..n] == actions;
    } else {
      var prefix := actions[..|actions| - 1];
      assert prefix[..n] == actions[..n];
      DeadStaysDead(fl, catalogs, prefix, n);
    }
  }

  // ----- The registry as a map -----

  /** What happens to one project's bucket. */
  datatype Event = Registration(dataset: string, routine: Routine) | Removal(name: string)

  function Events(actions: seq<Action>, project: string): seq<Event> {
    if actions == [] then []
    else
      var rest, a := Events(actions[..|actions| - 1], project), actions[|actions| - 1];
      if a.Register? && a.project == project != "" then rest + [Registration(a.dataset, a.routine)]
      else if a.Drop? && a.project == project != "" && a.name != "" then rest + [Removal(a.name)]
      else rest
  }

  function Apply(fl: Flavour, b: Bucket, e: Event): Bucket {
    match e
    case Registration(dataset, r) => RegisterIn(fl, b, dataset, r)
    case Removal(name) => DropIn(b, name)
  }

  function BucketRun(fl: Flavour, events: seq<Event>): Bucket {
    if events == [] then EMPTY else Apply(fl, BucketRun(fl, events[..|events| - 1]), events[|events| - 1])
  }

  /** Projects do not interfere: a bucket is the result of its own events. */
  lemma {:induction false} BucketOfRun(fl: Flavour, catalogs: map<nat, Entries>, actions: seq<Action>, project: string)
    requires !Run(fl, catalogs, actions).died
    ensures BucketAt(Run(fl, catalogs, actions), project) == BucketRun(fl, Events(actions, project))
  {
    if actions != [] {
      var prefix, a := actions[..|actions| - 1], actions[|actions| - 1];
      BucketOfRun(fl, catalogs, prefix, project);
      StepBucket(fl, Run(fl, catalogs, prefix), a, project);
      var before, events := Events(prefix, project), Events(actions, project);
      assert |events| > |before| ==> events[..|events| - 1] == before;
    }
  }

  /** What a routine is registered under: case-insensitive, and by name alone for table functions. */
  datatype Key = Key(dataset: string, name: string)

  function KeyOf(fl: Flavour, dataset: string, name: string): Key {
    Key(if fl.Tvfs? then "" else Lower(dataset), Lower(name))
  }

  function EntryKey(fl: Flavour, e: Entry): Key {
    KeyOf(fl, e.dataset, e.routine.name)
  }

  predicate Qualified(fl: Flavour, events: seq<Event>) {
    fl.Tvfs? || forall i | 0 <= i < |events| && events[i].Registration? :: events[i].dataset != ""
  }

  datatype Timed = Timed(time: nat, routine: Routine)

  /** The reference: a plain map from key to the latest registration and its time. */
  type Reference = map<Key, Timed>

  ghost predicate Oldest(r: Reference, k: Key, name: string) {
    k in r && k.name == name && forall k' | k' in r && k'.name == name :: r[k].time <= r[k'].time
  }

  /** Registering overwrites one key; a drop removes the oldest key of the name, if there is one. */
  ghost predicate Next(fl: Flavour, r: Reference, now: nat, e: Event, r': Reference) {
    match e
    case Registration(dataset, x) => r' == r[KeyOf(fl, dataset, x.name) := Timed(now, x)]
    case Removal(name) =>
      if exists k :: k in r && k.name == Lower(name)
      then exists k :: Oldest(r, k, Lower(name)) && r' == r - {k}
      else r' == r
  }

  ghost predicate Reaches(fl: Flavour, events: seq<Event>, r: Reference) {
    if events == [] then r == map[]
    else
      var n := |events| - 1;
      var prefix, last := events[..n], events[n];
      exists r0 :: Reaches(fl, prefix, r0) && Next(fl, r0, n, last, r)
  }

  predicate Ordered(times: seq<nat>, now: nat) {
    && (forall i, j | 0 <= i < j < |times| :: times[i] < times[j])
    && (forall i | 0 <= i < |times| :: times[i] < now)
  }

  /** Each live entry is the reference's entry for its key, at its time. */
  ghost predicate Listed(fl: Flavour, live: seq<Entry>, times: seq<nat>, r: Reference)
    requires |times| == |live|
  {
    forall i | 0 <= i < |live| ::
      EntryKey(fl, live[i]) in r && r[EntryKey(fl, live[i])] == Timed(times[i], live[i].routine)
  }

  predicate Holds(fl: Flavour, live: seq<Entry>, k: Key) {
    exists i :: 0 <= i < |live| && EntryKey(fl, live[i]) == k
  }

  ghost predicate Covered(fl: Flavour, live: seq<Entry>, r: Reference) {
    forall k | k in r :: Holds(fl, live, k)
  }

  predicate AllQualified(fl: Flavour, live: seq<Entry>) {
    fl.Tvfs? || forall i | 0 <= i < |live| :: live[i].dataset != ""
  }

  /** The live list holds exactly the reference's entries, in order of registration. */
  ghost predicate Tracks(fl: Flavour, live: seq<Entry>, times: seq<nat>, r: Reference, now: nat) {
    && |times| == |live|
    && Ordered(times, now)
    && Listed(fl, live, times, r)
    && Covered(fl, live, r)
    && AllQualified(fl, live)
  }

  function Without<T>(s: seq<T>, i: nat): (s': seq<T>)
    requires i < |s|
    ensures |s'| == |s| - 1
    ensures forall j | 0 <= j < |s'| :: s'[j] == s[if j < i then j else j + 1]
  {
    s[..i] + s[i + 1..]
  }

  lemma HoldsRetire(fl: Flavour, live: seq<Entry>, i: nat, k: Key)
    requires Holds(fl, live, k) && i < |live| && k != EntryKey(fl, live[i])
    ensures Holds(fl, Without(live, i), k)
  {
    var j :| 0 <= j < |live| && EntryKey(fl, live[j]) == k;
    assert Without(live, i)[if j < i then j else j - 1] == live[j];
  }

  lemma HoldsAppend(fl: Flavour, live: seq<Entry>, e: Entry, k: Key)
    requires Holds(fl, live, k)
    ensures Holds(fl, live + [e], k)
  {
    var j :| 0 <= j < |live| && EntryKey(fl, live[j]) == k;
    assert (live + [e])[j] == live[j];
  }

  lemma CoveredRetire(fl: Flavour, live: seq<Entry>, r: Reference, i: nat)
    requires Covered(fl, live, r) && i < |live|
    ensures Covered(fl, Without(live, i), r - {EntryKey(fl, live[i])})
  {
    forall k | k in r && k != EntryKey(fl, live[i]) ensures Holds(fl, Without(live, i), k) {
      HoldsRetire(fl, live, i, k);
    }
  }

  lemma ListedRetire(fl: Flavour, live: seq<Entry>, times: seq<nat>, r: Reference, now: nat, i: nat)
    requires |times| == |live| && Ordered(times, now) && Listed(fl, live, times, r) && i < |live|
    ensures Listed(fl, Without(live, i), Without(times, i), r - {EntryKey(fl, live[i])})
  {
    forall j | 0 <= j < |live| && j != i ensures EntryKey(fl, live[j]) != EntryKey(fl, live[i]) {
      assert times[j] != times[i];
    }
  }

  lemma TracksRetire(fl: Flavour, live: seq<Entry>, times: seq<nat>, r: Reference, now: nat, i: nat)
    requires Tracks(fl, live, times, r, now) && i < |live|
    ensures Tracks(fl, Without(live, i), Without(times, i), r - {EntryKey(fl, live[i])}, now)
  {
    CoveredRetire(fl, live, r, i);
    ListedRetire(fl, live, times, r, now, i);
  }

  lemma TracksAppend(fl: Flavour, live: seq<Entry>, times: seq<nat>, r: Reference, now: nat, e: Entry)
    requires Tracks(fl, live, times, r, now) && EntryKey(fl, e) !in r && (fl.Tvfs? || e.dataset != "")
    ensures Tracks(fl, live + [e], times + [now], r[EntryKey(fl, e) := Timed(now, e.routine)], now + 1)
  {
    var live', k0 := live + [e], EntryKey(fl, e);
    assert live'[|live|] == e;
    forall k | k in r ensures Holds(fl, live', k) { HoldsAppend(fl, live, e, k); }
  }

  lemma TracksLater(fl: Flavour, live: seq<Entry>, times: seq<nat>, r: Reference, now: nat)
    requires Tracks(fl, live, times, r, now)
    ensures Tracks(fl, live, times, r, now + 1)
  {
  }

  /** With datasets given, replacing means having the same key. */
  lemma ReplacesIffKey(fl: Flavour, e: Entry, dataset: string, name: string)
    requires fl.Tvfs? || (e.dataset != "" && dataset != "")
    ensures Replaces(fl, e, dataset, name) <==> EntryKey(fl, e) == KeyOf(fl, dataset, name)
    ensures !fl.Tvfs? ==> (Answers(e, dataset, name) <==> EntryKey(fl, e) == KeyOf(fl, dataset, name))
  {
  }

  lemma FirstReplacedKey(fl: Flavour, live: seq<Entry>, dataset: string, name: string)
    requires AllQualified(fl, live) && (fl.Tvfs? || dataset != "")
    ensures var i := FirstReplaced(fl, live, dataset, name);
            if i < |live| then EntryKey(fl, live[i]) == KeyOf(fl, dataset, name)
            else !Holds(fl, live, KeyOf(fl, dataset, name))
  {
    forall j | 0 <= j < |live|
      ensures Replaces(fl, live[j], dataset, name) <==> EntryKey(fl, live[j]) == KeyOf(fl, dataset, name)
    {
      ReplacesIffKey(fl, live[j], dataset, name);
    }
  }

  lemma ReplaceKey(r: Reference, k: Key, v: Timed)
    ensures (r - {k})[k := v] == r[k := v]
  {
  }

  lemma RegisterSimulates(fl: Flavour, b: Bucket, times: seq<nat>, r: Reference, now: nat, dataset: string, x: Routine)
    returns (times': seq<nat>)
    requires Tracks(fl, b.live, times, r, now) && (fl.Tvfs? || dataset != "")
    ensures Tracks(fl, RegisterIn(fl, b, dataset, x).live, times',
                   r[KeyOf(fl, dataset, x.name) := Timed(now, x)], now + 1)
  {
    var k := KeyOf(fl, dataset, x.name);
    var i := FirstReplaced(fl, b.live, dataset, x.name);
    FirstReplacedKey(fl, b.live, dataset, x.name);
    if i < |b.live| {
      TracksRetire(fl, b.live, times, r, now, i);
      ReplaceKey(r, k, Timed(now, x));
      TracksAppend(fl, Without(b.live, i), Without(times, i), r - {k}, now, Entry(dataset, x));
      times' := Without(times, i) + [now];
    } else {
      TracksAppend(fl, b.live, times, r, now, Entry(dataset, x));
      times' := times + [now];
    }
  }

  lemma FirstNamedOldest(fl: Flavour, live: seq<Entry>, times: seq<nat>, r: Reference, now: nat, name: string)
    requires Tracks(fl, live, times, r, now)
    ensures var i := FirstNamed(live, name);
            if i < |live| then Oldest(r, EntryKey(fl, live[i]), Lower(name))
            else forall k | k in r :: k.name != Lower(name)
  {
    forall k | k in r && k.name == Lower(name)
      ensures FirstNamed(live, name) < |live| && r[EntryKey(fl, live[FirstNamed(live, name)])].time <= r[k].time
    {
      FirstNamedBefore(fl, live, times, r, now, name, k);
    }
  }

  lemma FirstNamedBefore(fl: Flavour, live: seq<Entry>, times: seq<nat>, r: Reference, now: nat, name: string, k: Key)
    requires Tracks(fl, live, times, r, now) && k in r && k.name == Lower(name)
    ensures var i := FirstNamed(live, name);
            i < |live| && EntryKey(fl, live[i]) in r && r[EntryKey(fl, live[i])].time <= r[k].time
  {
    var j :| 0 <= j < |live| && EntryKey(fl, live[j]) == k;
    NamedByKey(fl, live[j], name);
    TimesFollowOrder(fl, live, times, r, now, FirstNamed(live, name), j);
  }

  lemma NamedByKey(fl: Flavour, e: Entry, name: string)
    ensures Named(e, name) <==> EntryKey(fl, e).name == Lower(name)
  {
  }

  lemma TimesFollowOrder(fl: Flavour, live: seq<Entry>, times: seq<nat>, r: Reference, now: nat, i: nat, j: nat)
    requires Tracks(fl, live, times, r, now) && i <= j < |live|
    ensures EntryKey(fl, live[i]) in r && EntryKey(fl, live[j]) in r
    ensures r[EntryKey(fl, live[i])].time <= r[EntryKey(fl, live[j])].time
  {
    assert Listed(fl, live, times, r);
    assert i < j ==> times[i] < times[j];
  }

  lemma DropSimulates(fl: Flavour, b: Bucket, times: seq<nat>, r: Reference, now: nat, name: string)
    returns (r': Reference, times': seq<nat>)
    requires Tracks(fl, b.live, times, r, now)
    ensures Next(fl, r, now, Removal(name), r') && Tracks(fl, DropIn(b, name).live, times', r', now + 1)
  {
    var i := FirstNamed(b.live, name);
    FirstNamedOldest(fl, b.live, times, r, now, name);
    if i < |b.live| {
      var k := EntryKey(fl, b.live[i]);
      TracksRetire(fl, b.live, times, r, now, i);
      r', times' := r - {k}, Without(times, i);
    } else {
      r', times' := r, times;
    }
    TracksLater(fl, DropIn(b, name).live, times', r', now);
  }

  /** Every run whose registrations are dataset-qualified simulates the reference map. */
  lemma {:induction false} RegistryRefinesMap(fl: Flavour, events: seq<Event>) returns (r: Reference, times: seq<nat>)
    requires Qualified(fl, events)
    ensures Reaches(fl, events, r) && Tracks(fl, BucketRun(fl, events).live, times, r, |events|)
  {
    if events == [] {
      r, times := map[], [];
    } else {
      var prefix, e := events[..|events| - 1], events[|events| - 1];
      var r0, times0 := RegistryRefinesMap(fl, prefix);
      var b := BucketRun(fl, prefix);
      match e {
        case Registration(dataset, x) =>
          assert events[|events| - 1].Registration?;
          r := r0[KeyOf(fl, dataset, x.name) := Timed(|prefix|, x)];
          times := RegisterSimulates(fl, b, times0, r0, |prefix|, dataset, x);
        case Removal(name) =>
          r, times := DropSimulates(fl, b, times0, r0, |prefix|, name);
      }
      assert Reaches(fl, prefix, r0) && Next(fl, r0, |events| - 1, e, r);
    }
  }

  /** A dataset-qualified lookup is a lookup in the reference map. */
  lemma {:induction false} FindIsLookup(fl: Flavour, live: seq<Entry>, times: seq<nat>, r: Reference, now: nat,
                                        dataset: string, name: string)
    requires Tracks(fl, live, times, r, now) && !fl.Tvfs? && dataset != ""
    ensures FindIn(live, dataset, name) ==
            if KeyOf(fl, dataset, name) in r then Some(r[KeyOf(fl, dataset, name)].routine) else None
  {
    var k := KeyOf(fl, dataset, name);
    FindByKey(fl, live, dataset, name);
    if k in r { var i :| 0 <= i < |live| && EntryKey(fl, live[i]) == k; }
  }

  lemma {:induction false} FindByKey(fl: Flavour, live: seq<Entry>, dataset: string, name: string)
    requires !fl.Tvfs? && dataset != "" && forall i | 0 <= i < |live| :: live[i].dataset != ""
    ensures match FindIn(live, dataset, name)
            case None => !Holds(fl, live, KeyOf(fl, dataset, name))
            case Some(x) =>
              exists i :: 0 <= i < |live| && EntryKey(fl, live[i]) == KeyOf(fl, dataset, name) && live[i].routine == x
  {
    if live != [] { ReplacesIffKey(fl, live[0], dataset, name); }
    if live != [] && !Answers(live[0], dataset, name) {
      FindByKey(fl, live[1..], dataset, name);
      if FindIn(live, dataset, name).Some? {
        var i :| 0 <= i < |live[1..]| && EntryKey(fl, live[1..][i]) == KeyOf(fl, dataset, name)
                 && live[1..][i].routine == FindIn(live, dataset, name).value;
        assert live[i + 1] == live[1..][i];
      } else {
        forall i | 0 <= i < |live| ensures EntryKey(fl, live[i]) != KeyOf(fl, dataset, name) {
          if i > 0 { assert live[i] == live[1..][i - 1]; }
        }
      }
    }
  }

  ghost predicate DistinctTimes(r: Reference, now: nat) {
    && (forall k | k in r :: r[k].time < now)
    && (forall k, k' | k in r && k' in r && r[k].time == r[k'].time :: k == k')
  }

  lemma NextUnique(fl: Flavour, r: Reference, now: nat, e: Event, r1: Reference, r2: Reference)
    requires DistinctTimes(r, now) && Next(fl, r, now, e, r1) && Next(fl, r, now, e, r2)
    ensures r1 == r2 && DistinctTimes(r1, now + 1)
  {
    if e.Removal? && exists k :: k in r && k.name == Lower(e.name) {
      var k1 :| Oldest(r, k1, Lower(e.name)) && r1 == r - {k1};
      var k2 :| Oldest(r, k2, Lower(e.name)) && r2 == r - {k2};
      assert k1 == k2;
    }
  }

  /** The reference is deterministic, so a lookup is determined by the history alone. */
  lemma {:induction false} ReferenceUnique(fl: Flavour, events: seq<Event>, r1: Reference, r2: Reference)
    requires Reaches(fl, events, r1) && Reaches(fl, events, r2)
    ensures r1 == r2 && DistinctTimes(r1, |events|)
  {
    if events != [] {
      var prefix, e := events[..|events| - 1], events[|events| - 1];
      var a :| Reaches(fl, prefix, a) && Next(fl, a, |events| - 1, e, r1);
      var b :| Reaches(fl, prefix, b) && Next(fl, b, |events| - 1, e, r2);
      ReferenceUnique(fl, prefix, a, b);
      NextUnique(fl, a, |events| - 1, e, r1, r2);
    }
  }

  /**
   Over every run with dataset-qualified registrations, a qualified lookup returns the latest registration
   of that pair not since dropped, and no two live entries share a key.
   */
  lemma FindReturnsLatest(fl: Flavour, catalogs: map<nat, Entries>, actions: seq<Action>, project: string,
                          dataset: string, name: string, r: Reference)
    requires !fl.Tvfs? && dataset != "" && Qualified(fl, Events(actions, project))
    requires Reaches(fl, Events(actions, project), r) && !Run(fl, catalogs, actions).died
    ensures var live := BucketAt(Run(fl, catalogs, actions), project).live;
            && FindIn(live, dataset, name) ==
               (if KeyOf(fl, dataset, name) in r then Some(r[KeyOf(fl, dataset, name)].routine) else None)
            && forall i, j | 0 <= i < j < |live| :: EntryKey(fl, live[i]) != EntryKey(fl, live[j])
  {
    var events := Events(actions, project);
    BucketOfRun(fl, catalogs, actions, project);
    var r', times := RegistryRefinesMap(fl, events);
    ReferenceUnique(fl, events, r, r');
    var live := BucketRun(fl, events).live;
    FindIsLookup(fl, live, times, r, |events|, dataset, name);
    KeysDistinct(fl, live, times, r, |events|);
  }

  lemma KeysDistinct(fl: Flavour, live: seq<Entry>, times: seq<nat>, r: Reference, now: nat)
    requires Tracks(fl, live, times, r, now)
    ensures forall i, j | 0 <= i < j < |live| :: EntryKey(fl, live[i]) != EntryKey(fl, live[j])
  {
    forall i, j | 0 <= i < j < |live| ensures EntryKey(fl, live[i]) != EntryKey(fl, live[j]) {
      assert times[i] != times[j];
    }
  }

  // ----- Lookup right after registration -----

  /** Nothing that answers stays in front of the new entry. */
  predicate Unobstructed(fl: Flavour, live: seq<Entry>, dataset: string, name: string) {
    forall k | 0 <= k < |live| && k != FirstReplaced(fl, live, dataset, name) :: !Answers(live[k], dataset, name)
  }

  lemma {:induction false} FindSnoc(live: seq<Entry>, e: Entry, dataset: string, name: string)
    requires Answers(e, dataset, name)
    ensures var found := FindIn(live + [e], dataset, name);
            if forall k | 0 <= k < |live| :: !Answers(live[k], dataset, name) then found == Some(e.routine)
            else exists k :: 0 <= k < |live| && found == Some(live[k].routine)
  {
    var longer := live + [e];
    if live != [] && !Answers(live[0], dataset, name) {
      assert longer[1..] == live[1..] + [e];
      FindSnoc(live[1..], e, dataset, name);
      assert forall k | 0 <= k < |live| - 1 :: live[1..][k] == live[k + 1];
      if k :| 0 <= k < |live| && Answers(live[k], dataset, name) {
        assert Answers(live[1..][k - 1], dataset, name);
        var j :| 0 <= j < |live[1..]| && FindIn(longer, dataset, name) == Some(live[1..][j].routine);
        assert live[j + 1] == live[1..][j];
      }
    } else if live != [] {
      assert FindIn(longer, dataset, name) == Some(live[0].routine);
    }
  }

  /** A lookup finds the routine just registered exactly when no other live entry answers. */
  lemma RegisteredIsFoundIff(fl: Flavour, b: Bucket, dataset: string, x: Routine)
    requires forall e | e in b.live :: e.routine != x
    ensures FindIn(RegisterIn(fl, b, dataset, x).live, dataset, x.name) == Some(x) <==>
            Unobstructed(fl, b.live, dataset, x.name)
  {
    var i := FirstReplaced(fl, b.live, dataset, x.name);
    var kept := Retire(b, i).live;
    FindSnoc(kept, Entry(dataset, x), dataset, x.name);
    KeptAnswers(b, i, dataset, x.name);
  }

  lemma KeptAnswers(b: Bucket, i: nat, dataset: string, name: string)
    requires i <= |b.live|
    ensures var kept := Retire(b, i).live;
            && (forall k | 0 <= k < |kept| :: kept[k] in b.live)
            && ((forall k | 0 <= k < |kept| :: !Answers(kept[k], dataset, name)) <==>
                forall k | 0 <= k < |b.live| && k != i :: !Answers(b.live[k], dataset, name))
  {
    var answers := (e: Entry) => Answers(e, dataset, name);
    if i < |b.live| { WithoutAll(b.live, i, answers); }
    assert forall e :: answers(e) <==> Answers(e, dataset, name);
  }

  lemma WithoutAll<T(!new)>(s: seq<T>, i: nat, p: T -> bool)
    requires i < |s|
    ensures var kept := s[..i] + s[i + 1..];
            && (forall k | 0 <= k < |kept| :: kept[k] in s)
            && ((forall k | 0 <= k < |kept| :: !p(kept[k])) <==> forall k | 0 <= k < |s| && k != i :: !p(s[k]))
  {
    var kept := s[..i] + s[i + 1..];
    forall k | 0 <= k < |s| && k != i ensures s[k] == kept[if k < i then k else k - 1] {}
    forall k | 0 <= k < |kept| ensures kept[k] == s[if k < i then k else k + 1] {}
  }

  /** From every reachable state, for a routine object not registered before. */
  lemma RegisteredIsFoundInRunIff(fl: Flavour, catalogs: map<nat, Entries>, actions: seq<Action>, project: string,
                                  dataset: string, x: Routine)
    requires !Run(fl, catalogs, actions).died && project != "" && x !in Registered(actions, project)
    ensures var before := BucketAt(Run(fl, catalogs, actions), project);
            var after := BucketAt(Run(fl, catalogs, actions + [Register(project, dataset, x)]), project);
            FindIn(after.live, dataset, x.name) == Some(x) <==> Unobstructed(fl, before.live, dataset, x.name)
  {
    var w := Run(fl, catalogs, actions);
    var b := BucketAt(w, project);
    RunSnoc(fl, catalogs, actions, Register(project, dataset, x));
    StepBucket(fl, w, Register(project, dataset, x), project);
    OwnershipConserved(fl, catalogs, actions, project);
    forall i | 0 <= i < |b.live| ensures b.live[i].routine != x {
      assert Routines(b.live)[i] == b.live[i].routine && Routines(b.live)[i] in Owned(b);
    }
    RegisteredIsFoundIff(fl, b, dataset, x);
  }

  /** For functions that is to match at most one entry; for views also no entry of that name without a dataset. */
  lemma UnobstructedMeans(live: seq<Entry>, dataset: string, name: string)
    ensures Unobstructed(Functions, live, dataset, name) <==> AtMostOneReplaced(Functions, live, dataset, name)
    ensures Unobstructed(Views, live, dataset, name) <==>
            && AtMostOneReplaced(Views, live, dataset, name)
            && forall k | 0 <= k < |live| && Named(live[k], name) :: live[k].dataset == "" ==> dataset == ""
  {
    UnobstructedByMatches(Functions, live, dataset, name);
    UnobstructedByMatches(Views, live, dataset, name);
  }

  /** Obstructed by a second match, or by an entry that answers without matching. */
  lemma UnobstructedByMatches(fl: Flavour, live: seq<Entry>, dataset: string, name: string)
    requires !fl.Tvfs?
    ensures Unobstructed(fl, live, dataset, name) <==>
            && AtMostOneReplaced(fl, live, dataset, name)
            && forall k | 0 <= k < |live| && Answers(live[k], dataset, name) :: Replaces(fl, live[k], dataset, name)
  {
    var i := FirstReplaced(fl, live, dataset, name);
    assert forall k | 0 <= k < |live| && Replaces(fl, live[k], dataset, name) ::
             Answers(live[k], dataset, name) && i <= k;
    if Unobstructed(fl, live, dataset, name) {
      forall k | 0 <= k < |live| && Answers(live[k], dataset, name) ensures k == i {}
    } else {
      var k :| 0 <= k < |live| && k != i && Answers(live[k], dataset, name);
      assert Replaces(fl, live[k], dataset, name) ==> i < k;
    }
  }

  /** A view registered without a dataset keeps answering for one registered later with it. */
  lemma StaleViewAnswers(dataset: string, f: Routine, g: Routine)
    requires dataset != "" && f.name == g.name
    ensures var one := RegisterIn(Views, EMPTY, "", f);
            var two := RegisterIn(Views, one, dataset, g);
            two.live == [Entry("", f), Entry(dataset, g)] && FindIn(two.live, dataset, g.name) == Some(f)
  {
    var one := RegisterIn(Views, EMPTY, "", f);
    assert one.live == [Entry("", f)];
    assert Lower("") == "" && |Lower(dataset)| == |dataset|;
    FirstReplacedIs(Views, one.live, dataset, g.name, 1);
  }

  // ----- Empty datasets -----

  predicate Disjoint(fl: Flavour, live: seq<Entry>) {
    forall i, j | 0 <= i < j < |live| :: !Replaces(fl, live[i], live[j].dataset, live[j].routine.name)
  }

  predicate AtMostOneReplaced(fl: Flavour, live: seq<Entry>, dataset: string, name: string) {
    forall i, j | 0 <= i < j < |live| :: !(Replaces(fl, live[i], dataset, name) && Replaces(fl, live[j], dataset, name))
  }

  /** A registration leaves no live entry it should have replaced exactly when it matched at most one. */
  lemma RegisterKeepsDisjointIff(fl: Flavour, b: Bucket, dataset: string, x: Routine)
    requires Disjoint(fl, b.live)
    ensures Disjoint(fl, RegisterIn(fl, b, dataset, x).live) <==> AtMostOneReplaced(fl, b.live, dataset, x.name)
  {
    var i := FirstReplaced(fl, b.live, dataset, x.name);
    var kept := Retire(b, i).live;
    assert DisjointKept(fl, b.live, kept, i) by {
      assert i < |b.live| ==> kept == Without(b.live, i);
    }
    DisjointAppend(fl, kept, Entry(dataset, x));
    if j, k :| 0 <= j < k < |b.live|
               && Replaces(fl, b.live[j], dataset, x.name) && Replaces(fl, b.live[k], dataset, x.name) {
      assert kept[k - 1] == b.live[k];
    }
  }

  /** `kept` is `live` without its entry `i`, in order. */
  predicate DisjointKept(fl: Flavour, live: seq<Entry>, kept: seq<Entry>, i: nat) {
    && (if i < |live| then kept == Without(live, i) else kept == live)
    && Disjoint(fl, kept)
  }

  lemma DisjointAppend(fl: Flavour, kept: seq<Entry>, e: Entry)
    requires Disjoint(fl, kept)
    ensures Disjoint(fl, kept + [e]) <==>
            forall j | 0 <= j < |kept| :: !Replaces(fl, kept[j], e.dataset, e.routine.name)
  {
    var after := kept + [e];
    assert after[|kept|] == e && forall j | 0 <= j < |kept| :: after[j] == kept[j];
  }

  lemma FirstReplacedIs(fl: Flavour, live: seq<Entry>, dataset: string, name: string, i: nat)
    requires i <= |live| && (forall k | 0 <= k < i :: !Replaces(fl, live[k], dataset, name))
    requires i < |live| ==> Replaces(fl, live[i], dataset, name)
    ensures FirstReplaced(fl, live, dataset, name) == i
  {
  }

  lemma TwoDatasets(x: string, y: string, f: Routine, g: Routine)
    requires x != "" && y != "" && Lower(x) != Lower(y)
    ensures RegisterIn(Functions, RegisterIn(Functions, EMPTY, x, f), y, g).live == [Entry(x, f), Entry(y, g)]
  {
    var one := RegisterIn(Functions, EMPTY, x, f);
    assert one.live == [Entry(x, f)];
    FirstReplacedIs(Functions, one.live, y, g.name, 1);
  }

  /** An unqualified registration over a name held in two datasets replaces the first only; the second still answers. */
  lemma EmptyDatasetLeavesMatch(x: string, y: string, f: Routine, g: Routine, h: Routine)
    requires x != "" && y != "" && Lower(x) != Lower(y) && f.name == g.name == h.name
    ensures var b := RegisterIn(Functions, RegisterIn(Functions, EMPTY, x, f), y, g);
            var live := RegisterIn(Functions, b, "", h).live;
            && live == [Entry(y, g), Entry("", h)] && !Disjoint(Functions, live)
            && FindIn(live, x, h.name) == Some(h)
            && FindIn(live, "", h.name) == Some(g) && FindIn(live, y, h.name) == Some(g)
  {
    var two := RegisterIn(Functions, RegisterIn(Functions, EMPTY, x, f), y, g);
    TwoDatasets(x, y, f, g);
    FirstReplacedIs(Functions, two.live, "", h.name, 0);
    var live := RegisterIn(Functions, two, "", h).live;
    assert live == [Entry(y, g), Entry("", h)] && live[1..] == [Entry("", h)];
    assert Replaces(Functions, live[0], live[1].dataset, live[1].routine.name);
  }
}
