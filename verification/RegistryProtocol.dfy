/** Trainers, readers, rollbacks, cache clears, crashes and the clock as one
    transition system over the store and the process-wide cache. Every store
    read or write and every block under the lock is one step, so a run is any
    interleaving of them. */
module RegistryProtocol {
  import opened Options
  import opened Json
  import opened RegistryStore

  /** `registry_cache_ttl_seconds` (0 disables the cache) and
      `registry_cache_max_entries`, with the bounds the settings enforce. */
  datatype Config = Config(ttl: real, maxEntries: nat) {
    predicate Valid() { ttl >= 0.0 && maxEntries >= 1 }
  }

  datatype CacheKey = CacheKey(pair: Pair, version: string)
  datatype Entry = Entry(expiry: real, bundle: Option<Bundle>)
  type Cache = map<CacheKey, Entry>

  /** One call of `load_calibration`. */
  datatype Call = Call(pair: Pair, pin: Option<string>, numClasses: Option<int>) {
    /** The cache key uses `version or ""`, so no pin and the empty pin share it. */
    function Slot(): CacheKey { CacheKey(pair, if pin.Some? then pin.value else "") }
  }

  /** Where a call is; `at` is the clock it read on entry. */
  datatype Reader =
    | Started(call: Call, at: real)
    | Resolving(call: Call, at: real)
    | Loading(call: Call, at: real, version: string, got: seq<Option<Json>>)
    | Loaded(call: Call, at: real, bundle: Option<Bundle>)
    | Done(call: Call, at: real, outcome: Outcome)

  /** A training call that has performed the first `pc` of its writes. */
  datatype Trainer = Trainer(pair: Pair, version: string, fit: Fit, pc: nat)

  /** `fits` records what each version id was issued for; nothing reads it. */
  datatype State = State(
    clock: real, store: Store, cache: Cache,
    trainers: map<nat, Trainer>, readers: map<nat, Reader>, fits: map<VersionId, Fit>)

  datatype Step =
    | Tick(dt: real)
    | StartTrainer(id: nat, pair: Pair, version: string, fit: Fit)
    | TrainerStep(id: nat)
    | Crash(id: nat)
    | Rollback(pair: Pair, version: string, updatedAt: string)
    | StartCall(id: nat, call: Call)
    | ReaderStep(id: nat, victim: CacheKey)
    | ClearCache(scenario: Option<string>, decisionType: Option<string>)

  // ---- the cache, under the lock ----

  /** The entries `clear_cache(scenario, decision_type)` drops. */
  predicate Selected(k: CacheKey, scenario: Option<string>, decisionType: Option<string>) {
    scenario.None?
        || (k.pair.scenario == scenario.value && (decisionType.None? || k.pair.decisionType == decisionType.value))
  }

  function Cleared(cache: Cache, scenario: Option<string>, decisionType: Option<string>): Cache {
    map k | k in cache && !Selected(k, scenario, decisionType) :: cache[k]
  }

  predicate Hit(cache: Cache, k: CacheKey, now: real) {
    k in cache && cache[k].expiry > now
  }

  predicate ClosestToExpiry(cache: Cache, k: CacheKey) {
    k in cache && forall other | other in cache :: cache[k].expiry <= cache[other].expiry
  }

  predicate MustEvict(config: Config, cache: Cache) {
    |cache| >= config.maxEntries
  }

  function Inserted(config: Config, cache: Cache, k: CacheKey, entry: Entry, victim: CacheKey): Cache {
    (if MustEvict(config, cache) then cache - {victim} else cache)[k := entry]
  }

  lemma InsertKeepsSize(config: Config, cache: Cache, k: CacheKey, entry: Entry, victim: CacheKey)
    requires config.Valid() && |cache| <= config.maxEntries
    requires MustEvict(config, cache) ==> victim in cache
    ensures |Inserted(config, cache, k, entry, victim)| <= config.maxEntries
  {
    var rest := if MustEvict(config, cache) then cache - {victim} else cache;
    if MustEvict(config, cache) {
      assert rest.Keys == cache.Keys - {victim};
      assert |rest| == |rest.Keys| == |cache.Keys| - 1;
    }
    var after := rest[k := entry];
    assert after.Keys == rest.Keys + {k};
    assert |after| == |after.Keys| <= |rest.Keys| + 1;
  }

  // ---- one read of a load ----

  const LOAD_ORDER: seq<BlobName> := [Manifest, Temperature, Isotonic, Numeric]

  /** The reader after its next read of the store. */
  function AfterRead(store: Store, r: Reader): Reader
    requires r.Resolving? || (r.Loading? && |r.got| < 4)
  {
    match r
    case Resolving(call, at) => (
      match call.pin
      case Some(version) =>
        if Blob(call.pair, version, Manifest) !in store then Done(call, at, Raised(NoSuchVersion))
        else Loading(call, at, version, [])
      case None =>
        match PointerVersion(Read(store, Latest(call.pair)))
        case None => Loaded(call, at, None)
        case Some(version) => Loading(call, at, version, []))
    case Loading(call, at, version, got) =>
      var now := got + [Read(store, Blob(call.pair, version, LOAD_ORDER[|got|]))];
      if |got| == 1 && now[1].None? then Done(call, at, Raised(Inconsistent))
      else if |now| < 4 || now[1].None? then Loading(call, at, version, now)
      else
        match Assemble(call.pair, version, now[0], now[1].value, now[2], now[3])
        case Served(bundle) => Loaded(call, at, bundle)
        case Raised(error) => Done(call, at, Raised(error))
  }

  // ---- the transition relation ----

  predicate TrainerNext(s: State, id: nat, s': State) {
    && id in s.trainers
    && var t := s.trainers[id];
       if t.pc < 4 then
         var w := Writes(t.pair, t.version, t.fit)[t.pc];
         s' == s.(store := s.store[w.0 := w.1], trainers := s.trainers[id := t.(pc := t.pc + 1)])
       else
         s' == s.(cache := Cleared(s.cache, Some(t.pair.scenario), Some(t.pair.decisionType)),
                  trainers := s.trainers - {id})
  }

  predicate ReaderNext(config: Config, s: State, id: nat, victim: CacheKey, s': State) {
    && id in s.readers
    && match s.readers[id]
       case Started(call, at) =>
         s' == s.(readers := s.readers[id :=
           if config.ttl > 0.0 && Hit(s.cache, call.Slot(), at)
           then Done(call, at, CheckClasses(s.cache[call.Slot()].bundle, call.numClasses))
           else Resolving(call, at)])
       case Resolving(_, _) => s' == s.(readers := s.readers[id := AfterRead(s.store, s.readers[id])])
       case Loading(_, _, _, got) =>
         |got| < 4 && s' == s.(readers := s.readers[id := AfterRead(s.store, s.readers[id])])
       case Loaded(call, at, bundle) =>
         && (config.ttl > 0.0 && MustEvict(config, s.cache) ==> ClosestToExpiry(s.cache, victim))
         && s' == s.(
           cache := if config.ttl > 0.0
                    then Inserted(config, s.cache, call.Slot(), Entry(at + config.ttl, bundle), victim) else s.cache,
           readers := s.readers[id := Done(call, at, CheckClasses(bundle, call.numClasses))])
       case Done(_, _, _) => false
  }

  predicate Next(config: Config, s: State, step: Step, s': State) {
    match step
    case Tick(dt) => dt > 0.0 && s' == s.(clock := s.clock + dt)
    case StartTrainer(id, pair, version, fit) =>
      && id !in s.trainers && VersionId(pair, version) !in s.fits && version != "" && ValidFit(fit)
      && s' == s.(trainers := s.trainers[id := Trainer(pair, version, fit, 0)],
                  fits := s.fits[VersionId(pair, version) := fit])
    case TrainerStep(id) => TrainerNext(s, id, s')
    case Crash(id) => id in s.trainers && s' == s.(trainers := s.trainers - {id})
    case Rollback(pair, version, updatedAt) =>
      && Blob(pair, version, Manifest) in s.store
      && s' == s.(store := s.store[Latest(pair) := PointerJson(version, updatedAt)])
    case StartCall(id, call) =>
      id !in s.readers && s' == s.(readers := s.readers[id := Started(call, s.clock)])
    case ReaderStep(id, victim) => ReaderNext(config, s, id, victim, s')
    case ClearCache(scenario, decisionType) => s' == s.(cache := Cleared(s.cache, scenario, decisionType))
  }

  predicate Init(s: State) {
    s.store == map[] && s.cache == map[] && s.trainers == map[] && s.readers == map[] && s.fits == map[]
  }

  /** A run: state k + 1 follows state k by step k. */
  predicate Run(config: Config, tr: seq<State>, steps: seq<Step>) {
    && config.Valid()
    && |tr| == |steps| + 1
    && Init(tr[0])
    && forall k {:trigger steps[k]} | 0 <= k < |steps| :: Next(config, tr[k], steps[k], tr[k + 1])
  }

  // ---- what every step keeps of the store ----

  /** The version's fit is known and every object of it is exactly that fit's. */
  ghost predicate Committed(s: State, pair: Pair, version: string) {
    VersionId(pair, version) in s.fits && Complete(s.store, pair, version, s.fits[VersionId(pair, version)])
  }

  /** A version's objects are only ever what its fit stores there. */
  ghost predicate OwnContent(s: State) {
    forall pair, version, name | Blob(pair, version, name) in s.store ::
      && VersionId(pair, version) in s.fits
      && Payload(pair, version, s.fits[VersionId(pair, version)], name) == Some(s.store[Blob(pair, version, name)])
  }

  /** A manifest is written only after both artifacts. */
  ghost predicate ManifestLast(s: State) {
    forall pair, version | Blob(pair, version, Manifest) in s.store :: Committed(s, pair, version)
  }

  ghost predicate PointerToManifest(s: State) {
    forall pair | Latest(pair) in s.store ::
      && PointerVersion(Some(s.store[Latest(pair)])).Some?
      && Blob(pair, PointerVersion(Some(s.store[Latest(pair)])).value, Manifest) in s.store
  }

  predicate TrainerKnown(s: State, t: Trainer) {
    && VersionId(t.pair, t.version) in s.fits && s.fits[VersionId(t.pair, t.version)] == t.fit
    && t.pc <= 4
    && var w := Writes(t.pair, t.version, t.fit);
       && (t.pc >= 1 ==> w[0].0 in s.store)
       && (t.pc >= 2 ==> w[1].0 in s.store)
       && (t.pc >= 3 ==> w[2].0 in s.store)
  }

  ghost predicate StoreInv(s: State) {
    && OwnContent(s) && ManifestLast(s) && PointerToManifest(s)
    && (forall id | id in s.fits :: id.version != "" && ValidFit(s.fits[id]))
    && (forall id | id in s.trainers :: TrainerKnown(s, s.trainers[id]))
  }

  lemma ReaderKeepsStore(config: Config, s: State, id: nat, victim: CacheKey, s': State)
    requires ReaderNext(config, s, id, victim, s')
    ensures s'.store == s.store && s'.fits == s.fits && s'.trainers == s.trainers
  {
    hide AfterRead, Inserted, CheckClasses;
  }

  /** Each write of a trainer puts an object where its fit's payload belongs. */
  lemma WritesArePayloads(pair: Pair, version: string, fit: Fit, pc: nat)
    requires pc < 4
    ensures var (key, value) := Writes(pair, version, fit)[pc];
            if key.Blob?
                then key.pair == pair && key.version == version && Payload(pair, version, fit, key.name) == Some(value)
            else key == Latest(pair) && pc == 3
  {}

  /** Store contents a step may change: one key, and never a key that holds an
      object of a version. */
  lemma StoreGrows(config: Config, s: State, step: Step, s': State)
    requires StoreInv(s) && Next(config, s, step, s')
    ensures forall key | key in s.store :: key in s'.store
    ensures forall pair, version, name | Blob(pair, version, name) in s.store ::
              s'.store[Blob(pair, version, name)] == s.store[Blob(pair, version, name)]
    ensures forall id | id in s.fits :: id in s'.fits && s'.fits[id] == s.fits[id]
  {
    hide ReaderNext, Writes, Payload, Committed, PointerVersion, ValidFit, Cleared;
    if step.TrainerStep? && s.trainers[step.id].pc < 4 {
      var t := s.trainers[step.id];
      WritesArePayloads(t.pair, t.version, t.fit, t.pc);
    } else if step.ReaderStep? {
      ReaderKeepsStore(config, s, step.id, step.victim, s');
    }
  }

  /** Only a trainer's write adds an object. */
  lemma NewObject(config: Config, s: State, step: Step, s': State, key: Key)
    requires StoreInv(s) && Next(config, s, step, s') && key.Blob? && key in s'.store && key !in s.store
    ensures step.TrainerStep? && step.id in s.trainers
    ensures var t := s.trainers[step.id];
            && TrainerKnown(s, t) && t.pc < 4
            && key == Writes(t.pair, t.version, t.fit)[t.pc].0
            && s'.store[key] == Writes(t.pair, t.version, t.fit)[t.pc].1
            && s'.fits == s.fits
  {
    hide ReaderNext, Writes, Payload, Committed, PointerVersion, ValidFit, Cleared, TrainerKnown;
    if step.ReaderStep? {
      ReaderKeepsStore(config, s, step.id, step.victim, s');
    }
  }

  lemma OwnContentKept(config: Config, s: State, step: Step, s': State)
    requires StoreInv(s) && Next(config, s, step, s')
    ensures OwnContent(s')
  {
    hide Next, Writes, Payload, Committed;
    StoreGrows(config, s, step, s');
    forall pair, version, name | Blob(pair, version, name) in s'.store
      ensures VersionId(pair, version) in s'.fits
      ensures Payload(pair, version, s'.fits[VersionId(pair, version)], name)
              == Some(s'.store[Blob(pair, version, name)])
    {
      if Blob(pair, version, name) !in s.store {
        NewObject(config, s, step, s', Blob(pair, version, name));
        var t := s.trainers[step.id];
        WritesArePayloads(t.pair, t.version, t.fit, t.pc);
      }
    }
  }

  /** Once a version is complete it stays complete, object for object. */
  lemma CommittedKept(config: Config, s: State, step: Step, s': State, pair: Pair, version: string)
    requires StoreInv(s) && Next(config, s, step, s') && Committed(s, pair, version)
    ensures Committed(s', pair, version)
    ensures s'.fits[VersionId(pair, version)] == s.fits[VersionId(pair, version)]
  {
    StoreGrows(config, s, step, s');
    OwnContentKept(config, s, step, s');
    var fit := s.fits[VersionId(pair, version)];
    forall name ensures Read(s'.store, Blob(pair, version, name)) == Payload(pair, version, fit, name) {
      assert Read(s.store, Blob(pair, version, name)) == Payload(pair, version, fit, name);
    }
  }

  /** A version both of whose artifacts are stored, together with its
      manifest, is complete. */
  lemma ArtifactsMakeCommitted(s: State, pair: Pair, version: string)
    requires OwnContent(s) && VersionId(pair, version) in s.fits && ValidFit(s.fits[VersionId(pair, version)])
    requires var w := Writes(pair, version, s.fits[VersionId(pair, version)]);
             w[0].0 in s.store && w[1].0 in s.store && w[2].0 in s.store
    ensures Committed(s, pair, version)
  {
    var fit := s.fits[VersionId(pair, version)];
    forall name ensures Read(s.store, Blob(pair, version, name)) == Payload(pair, version, fit, name) {
      match name
      case Manifest => case Temperature => case Isotonic => case Numeric =>
    }
  }

  lemma TrainerStaysKnown(s: State, s': State, t: Trainer)
    requires TrainerKnown(s, t)
    requires forall key | key in s.store :: key in s'.store
    requires forall id | id in s.fits :: id in s'.fits && s'.fits[id] == s.fits[id]
    ensures TrainerKnown(s', t)
  {}

  lemma TrainerAdvances(s: State, id: nat, s': State)
    requires TrainerNext(s, id, s') && TrainerKnown(s, s.trainers[id])
    ensures id in s'.trainers ==> TrainerKnown(s', s'.trainers[id])
  {}

  lemma TrainersKept(config: Config, s: State, step: Step, s': State)
    requires StoreInv(s) && Next(config, s, step, s')
    ensures forall id | id in s'.trainers :: TrainerKnown(s', s'.trainers[id])
  {
    hide ReaderNext, Writes, Committed, OwnContent, ManifestLast, PointerToManifest, ValidFit, Cleared;
    if step.ReaderStep? {
      ReaderKeepsStore(config, s, step.id, step.victim, s');
    }
    StoreGrows(config, s, step, s');
    forall id | id in s'.trainers ensures TrainerKnown(s', s'.trainers[id]) {
      if id in s.trainers && s'.trainers[id] == s.trainers[id] {
        TrainerStaysKnown(s, s', s.trainers[id]);
      } else if step.TrainerStep? {
        TrainerAdvances(s, step.id, s');
      }
    }
  }

  lemma FitsKept(config: Config, s: State, step: Step, s': State)
    requires StoreInv(s) && Next(config, s, step, s')
    ensures forall id | id in s'.fits :: id.version != "" && ValidFit(s'.fits[id])
  {
    hide ReaderNext, Writes, Committed, OwnContent, ManifestLast, PointerToManifest, TrainerKnown, ValidFit, Cleared;
    if step.ReaderStep? {
      ReaderKeepsStore(config, s, step.id, step.victim, s');
    }
  }

  lemma ManifestLastKept(config: Config, s: State, step: Step, s': State)
    requires StoreInv(s) && Next(config, s, step, s')
    ensures ManifestLast(s')
  {
    hide Next, Payload, Committed;
    forall pair, version | Blob(pair, version, Manifest) in s'.store ensures Committed(s', pair, version) {
      if Blob(pair, version, Manifest) in s.store {
        CommittedKept(config, s, step, s', pair, version);
      } else {
        NewObject(config, s, step, s', Blob(pair, version, Manifest));
        OwnContentKept(config, s, step, s');
        StoreGrows(config, s, step, s');
        ArtifactsMakeCommitted(s', pair, version);
      }
    }
  }

  lemma PointerKept(config: Config, s: State, step: Step, s': State)
    requires StoreInv(s) && Next(config, s, step, s')
    ensures PointerToManifest(s')
  {
    hide ReaderNext, PointerVersion, Payload, OwnContent, ValidFit, Cleared, PointerJson;
    if step.ReaderStep? {
      ReaderKeepsStore(config, s, step.id, step.victim, s');
    }
    StoreGrows(config, s, step, s');
    forall pair | Latest(pair) in s'.store
      ensures PointerVersion(Some(s'.store[Latest(pair)])).Some?
      ensures Blob(pair, PointerVersion(Some(s'.store[Latest(pair)])).value, Manifest) in s'.store
    {
      if step.Rollback? && pair == step.pair {
        assert Committed(s, pair, step.version);
        PointerNames(step.version, step.updatedAt);
      } else if step.TrainerStep? && s.trainers[step.id].pc == 3 && s.trainers[step.id].pair == pair {
        var t := s.trainers[step.id];
        assert TrainerKnown(s, t);
        PointerNames(t.version, t.fit.info.createdAt);
      } else {
        assert Read(s'.store, Latest(pair)) == Read(s.store, Latest(pair));
      }
    }
  }

  lemma StoreInvKept(config: Config, s: State, step: Step, s': State)
    requires StoreInv(s) && Next(config, s, step, s')
    ensures StoreInv(s')
  {
    OwnContentKept(config, s, step, s');
    ManifestLastKept(config, s, step, s');
    PointerKept(config, s, step, s');
    TrainersKept(config, s, step, s');
    FitsKept(config, s, step, s');
  }

  lemma {:induction false} StoreInvInRun(config: Config, tr: seq<State>, steps: seq<Step>, n: nat)
    requires Run(config, tr, steps) && n < |tr|
    ensures StoreInv(tr[n])
  {
    if n > 0 {
      StoreInvInRun(config, tr, steps, n - 1);
      StoreInvKept(config, tr[n - 1], steps[n - 1], tr[n]);
    }
  }

  lemma StepInRun(config: Config, tr: seq<State>, steps: seq<Step>, k: nat)
    requires Run(config, tr, steps) && k < |steps|
    ensures StoreInv(tr[k]) && Next(config, tr[k], steps[k], tr[k + 1])
  {
    StoreInvInRun(config, tr, steps, k);
  }

  lemma {:induction false} CommittedInRun(
    config: Config, tr: seq<State>, steps: seq<Step>, m: nat, n: nat, pair: Pair, version: string)
    requires Run(config, tr, steps) && m <= n < |tr| && Committed(tr[m], pair, version)
    ensures Committed(tr[n], pair, version)
    ensures tr[n].fits[VersionId(pair, version)] == tr[m].fits[VersionId(pair, version)]
    decreases n
  {
    if m < n {
      CommittedInRun(config, tr, steps, m, n - 1, pair, version);
      assert StoreInv(tr[n-1]) && Next(config, tr[n-1], steps[n-1], tr[n]) by { StepInRun(config, tr, steps, n - 1); }
      CommittedKept(config, tr[n - 1], steps[n - 1], tr[n], pair, version);
    }
  }

  /** In every state of every run, `latest` names only a version whose manifest
      and artifacts are all stored and are one trainer's fit; and from then on
      no object of that version changes, appears or disappears. */
  lemma LatestIsCompleteAndFrozen(config: Config, tr: seq<State>, steps: seq<Step>, m: nat, n: nat, pair: Pair)
    requires Run(config, tr, steps) && m <= n < |tr|
    requires Latest(pair) in tr[m].store
    ensures var pointed := PointerVersion(Some(tr[m].store[Latest(pair)]));
            && pointed.Some?
            && VersionId(pair, pointed.value) in tr[m].fits
            && Complete(tr[m].store, pair, pointed.value, tr[m].fits[VersionId(pair, pointed.value)])
            && forall name ::
                  Read(tr[n].store, Blob(pair, pointed.value, name))
                      == Read(tr[m].store, Blob(pair, pointed.value, name))
  {
    StoreInvInRun(config, tr, steps, m);
    var version := PointerVersion(Some(tr[m].store[Latest(pair)])).value;
    assert Committed(tr[m], pair, version);
    CommittedInRun(config, tr, steps, m, n, pair, version);
  }

  // ---- what single steps do to the cache ----

  /** A clear drops all entries, those of a scenario, or those of one pair, pinned or
      not, and changes no other. */
  lemma ClearedMeans(cache: Cache, scenario: string, decisionType: string, k: CacheKey)
    ensures Cleared(cache, None, None) == map[] == Cleared(cache, None, Some(decisionType))
    ensures k in Cleared(cache, Some(scenario), None) <==> k in cache && k.pair.scenario != scenario
    ensures k in Cleared(cache, Some(scenario), Some(decisionType))
            <==> k in cache && k.pair != Pair(scenario, decisionType)
    ensures k in Cleared(cache, Some(scenario), None) ==> Cleared(cache, Some(scenario), None)[k] == cache[k]
    ensures k in Cleared(cache, Some(scenario), Some(decisionType)) ==>
              Cleared(cache, Some(scenario), Some(decisionType))[k] == cache[k]
  {}

  /** A finished load is stored for one TTL from its own clock reading. Only in a full
      cache does an entry go for it, and then it is one that expires no later than any
      other; with the cache switched off nothing is stored. */
  lemma FinishedLoadIsStored(config: Config, s: State, id: nat, victim: CacheKey, s': State)
    requires Next(config, s, ReaderStep(id, victim), s') && s.readers[id].Loaded?
    ensures var r := s.readers[id];
            var slot := CacheKey(r.call.pair, if r.call.pin == None then "" else r.call.pin.value);
            if config.ttl > 0.0 then
              && slot in s'.cache && s'.cache[slot] == Entry(r.at + config.ttl, r.bundle)
              && (forall k | k in s'.cache && k != slot :: k in s.cache && s'.cache[k] == s.cache[k])
              && forall k | k in s.cache && k !in s'.cache ::
                   |s.cache| >= config.maxEntries && k == victim
                   && forall other | other in s.cache :: s.cache[k].expiry <= s.cache[other].expiry
            else s'.cache == s.cache
  {}

  /** A call that finds a live entry finishes with it at once, and any other goes to
      the store. */
  lemma StartedCall(config: Config, s: State, id: nat, victim: CacheKey, s': State)
    requires Next(config, s, ReaderStep(id, victim), s') && s.readers[id].Started?
    ensures var r := s.readers[id];
            var slot := CacheKey(r.call.pair, if r.call.pin == None then "" else r.call.pin.value);
            && s'.cache == s.cache && s'.store == s.store
            && (s'.readers[id].Done? <==> config.ttl > 0.0 && slot in s.cache && s.cache[slot].expiry > r.at)
            && (s'.readers[id].Done? || s'.readers[id] == Resolving(r.call, r.at))
  {}

  /** What may happen at any moment: time passes, a new fit or a new call starts, a
      trainer takes its next step or crashes before it, a caller moves on, the pointer
      is moved to any version with a manifest, and the cache is cleared. */
  lemma StepsArePossible(config: Config, s: State, id: nat, dt: real, call: Call, pair: Pair, version: string, fit: Fit)
    ensures dt > 0.0 ==> Next(config, s, Tick(dt), s.(clock := s.clock + dt))
    ensures id !in s.trainers && VersionId(pair, version) !in s.fits && version != "" && ValidFit(fit) ==>
              Next(config, s, StartTrainer(id, pair, version, fit),
                   s.(trainers := s.trainers[id := Trainer(pair, version, fit, 0)],
                      fits := s.fits[VersionId(pair, version) := fit]))
    ensures id in s.trainers ==> Next(config, s, Crash(id), s.(trainers := s.trainers - {id}))
    ensures id in s.trainers ==> exists s' :: Next(config, s, TrainerStep(id), s')
    ensures Blob(pair, version, Manifest) in s.store ==>
              forall at :: Next(config, s, Rollback(pair, version, at),
                  s.(store := s.store[Latest(pair) := PointerJson(version, at)]))
    ensures id !in s.readers ==>
            Next(config, s, StartCall(id, call), s.(readers := s.readers[id := Started(call, s.clock)]))
    ensures id in s.readers && !s.readers[id].Done? && (s.readers[id].Loading? ==> |s.readers[id].got| < 4)
            && config.ttl == 0.0 ==>
              exists s' :: Next(config, s, ReaderStep(id, call.Slot()), s')
    ensures Next(config, s, ClearCache(Some(pair.scenario), Some(pair.decisionType)),
                 s.(cache := Cleared(s.cache, Some(pair.scenario), Some(pair.decisionType))))
  {
    hide AfterRead, Inserted, Cleared, CheckClasses, Writes, ValidFit, PointerJson;
    if id in s.trainers {
      var t := s.trainers[id];
      if t.pc < 4 {
        var w := Writes(t.pair, t.version, t.fit)[t.pc];
        var s' := s.(store := s.store[w.0 := w.1], trainers := s.trainers[id := t.(pc := t.pc + 1)]);
        assert Next(config, s, TrainerStep(id), s');
      } else {
        var s' := s.(cache := Cleared(s.cache, Some(t.pair.scenario), Some(t.pair.decisionType)), trainers :=
            s.trainers - {id});
        assert Next(config, s, TrainerStep(id), s');
      }
    }
    if id in s.readers && !s.readers[id].Done? && (s.readers[id].Loading? ==> |s.readers[id].got| < 4)
        && config.ttl == 0.0 {
      var r := s.readers[id];
      var r' := match r
        case Started(c, at) => Resolving(c, at)
        case Loaded(c, at, bundle) => Done(c, at, CheckClasses(bundle, c.numClasses))
        case _ => AfterRead(s.store, r);
      var s' := s.(readers := s.readers[id := r']);
      assert Next(config, s, ReaderStep(id, call.Slot()), s');
    }
  }
}
