/** The registry object itself: sequential writes, one load at a time, the
    cache dictionary updated in place, and the listings. */
module Registry {
  import opened Options
  import opened Text
  import opened Json
  import opened Calibrators
  import opened Ordering
  import opened Collecting
  import opened RegistryStore
  import opened RegistryKeys
  import opened RegistryProtocol

  datatype ScenarioRow = ScenarioRow(pair: Pair, version: string, numVersions: nat)
  datatype VersionRow = VersionRow(version: string, isCurrent: bool)

  // ---- what the listings must contain ----

  function VersionRows(store: Store, pair: Pair): set<VersionRow> {
    var current := PointerVersion(Read(store, Latest(pair)));
    set key | key in store && IsManifest(key, pair) :: VersionRow(key.version, current == Some(key.version))
  }

  function ScenarioRows(store: Store): set<ScenarioRow> {
    set key | key in store && HasPointer(store, key) :: ScenarioRowOf(store, key)
  }

  predicate NewestFirst(a: VersionRow, b: VersionRow) { TextLe(b.version, a.version) }

  predicate ByName(a: ScenarioRow, b: ScenarioRow) {
    TextLe(a.pair.scenario, b.pair.scenario)
    && (a.pair.scenario == b.pair.scenario ==> TextLe(a.pair.decisionType, b.pair.decisionType))
  }

  lemma NewestFirstTotal()
    ensures Total(NewestFirst)
  {
    forall x, y ensures NewestFirst(x, y) || NewestFirst(y, x) { TextLeTotal(x.version, y.version); }
    forall x, y, z | NewestFirst(x, y) && NewestFirst(y, z) ensures NewestFirst(x, z) {
      TextLeTransitive(z.version, y.version, x.version);
    }
  }

  lemma ByNameTotal()
    ensures Total(ByName)
  {
    forall x, y ensures ByName(x, y) || ByName(y, x) {
      TextLeTotal(x.pair.scenario, y.pair.scenario);
      TextLeTotal(x.pair.decisionType, y.pair.decisionType);
    }
    forall x, y, z | ByName(x, y) && ByName(y, z) ensures ByName(x, z) {
      TextLeTransitive(x.pair.scenario, y.pair.scenario, z.pair.scenario);
      if x.pair.scenario == z.pair.scenario {
        TextLeAntisymmetric(x.pair.scenario, y.pair.scenario);
        TextLeTransitive(x.pair.decisionType, y.pair.decisionType, z.pair.decisionType);
      }
    }
  }

  predicate IsManifest(key: Key, pair: Pair) {
    key.Blob? && key.pair == pair && key.name.Manifest?
  }

  predicate HasPointer(store: Store, key: Key) {
    key in store && key.Latest? && PointerVersion(Some(store[key])).Some?
  }

  function ScenarioRowOf(store: Store, key: Key): ScenarioRow
    requires HasPointer(store, key)
  {
    ScenarioRow(key.pair, PointerVersion(Some(store[key])).value, |VersionRows(store, key.pair)|)
  }

  /** The row, if any, that a listing appends for one key. */
  function VersionRowFor(pair: Pair, current: Option<string>): Key -> Option<VersionRow> {
    (key: Key) => if IsManifest(key, pair) then Some(VersionRow(key.version, current == Some(key.version))) else None
  }

  function ScenarioRowFor(store: Store): Key -> Option<ScenarioRow> {
    (key: Key) => if HasPointer(store, key) then Some(ScenarioRowOf(store, key)) else None
  }

  /** In every reachable store a pair with a pointer has exactly one current
      version among those listed. */
  lemma ExactlyOneCurrent(s: State, pair: Pair)
    requires StoreInv(s) && Latest(pair) in s.store
    ensures exists row :: row in VersionRows(s.store, pair) && row.isCurrent
    ensures forall a, b ::
            a in VersionRows(s.store, pair) && b in VersionRows(s.store, pair) && a.isCurrent && b.isCurrent ==> a == b
  {
    var version := PointerVersion(Some(s.store[Latest(pair)])).value;
    assert Blob(pair, version, Manifest) in s.store;
    assert VersionRow(version, true) in VersionRows(s.store, pair);
  }

  /** The entry is in, and if the cache was full an entry closest to expiry is out. */
  ghost predicate StoredIn(config: Config, before: Cache, slot: CacheKey, entry: Entry, after: Cache) {
    exists victim ::
      && (MustEvict(config, before) ==> ClosestToExpiry(before, victim))
      && after == Inserted(config, before, slot, entry, victim)
  }

  /** What a call is told of the bundle there is: all of it, or that it was fitted for
      other classes than the call names. */
  predicate AnswersWith(bundle: Option<Bundle>, numClasses: Option<int>, outcome: Outcome) {
    match (bundle, numClasses)
    case (Some(b), Some(asked)) =>
      if b.numClasses == None || b.numClasses == Some(asked) then outcome == Served(bundle)
      else outcome == Raised(ClassMismatch)
    case _ => outcome == Served(bundle)
  }

  lemma SameSize<T>(rows: seq<T>, all: set<T>)
    requires multiset(rows) == multiset(all)
    ensures |rows| == |all|
  {
    assert |multiset(rows)| == |multiset(all)|;
  }

  lemma RemovedSize(cache: Cache, keys: set<CacheKey>)
    requires keys <= cache.Keys
    ensures |cache - keys| == |cache| - |keys|
  {
    assert (cache - keys).Keys == cache.Keys - keys;
    assert |(cache - keys).Keys| == |cache - keys|;
  }

  lemma RemoveOneMore(cache: Cache, keys: set<CacheKey>, rest: set<CacheKey>, k: CacheKey)
    requires k in rest && rest <= keys
    ensures (cache - (keys - rest)) - {k} == cache - (keys - (rest - {k}))
  {}

  lemma RemovedIsCleared(cache: Cache, keys: set<CacheKey>, scenario: Option<string>, decisionType: Option<string>)
    requires keys == set k | k in cache && Selected(k, scenario, decisionType)
    ensures cache - keys == Cleared(cache, scenario, decisionType)
  {}

  /** A load depends on the pair's own objects alone. */
  lemma SameObjectsLoad(store: Store, other: Store, pair: Pair)
    requires forall key: Key | key.pair == pair :: Read(other, key) == Read(store, key)
    ensures LoadUncached(other, pair, None) == LoadUncached(store, pair, None)
  {
    hide Assemble, PointerVersion;
  }

  // ---- free names ----

  predicate Exists(store: Store, scenario: string, decisionType: string) {
    PointerVersion(Read(store, Latest(Pair(scenario, decisionType)))).Some?
  }

  /** No object at the pair's pointer key names a version. */
  ghost predicate Unpointed(store: Store, pair: Pair) {
    Latest(pair) in store ==> forall v | v != "" :: Get(store[Latest(pair)], "version") != Str(v)
  }

  /** A pair exists exactly when its pointer names a version, which is exactly when
      an unpinned load is not told "untrained". */
  lemma ExistsIff(store: Store, scenario: string, decisionType: string)
    ensures var pair := Pair(scenario, decisionType);
            && (Exists(store, scenario, decisionType) <==> !Unpointed(store, pair))
            && (Exists(store, scenario, decisionType) <==> LoadUncached(store, pair, None) != Served(None))
  {
    var pair := Pair(scenario, decisionType);
    if Exists(store, scenario, decisionType) {
      var v := PointerVersion(Read(store, Latest(pair))).value;
      assert Get(store[Latest(pair)], "version") == Str(v);
    }
  }

  /** The numbered sibling the search tries k-th: the name itself, then -2, -3, ... */
  function Candidate(scenario: string, k: nat): string {
    if k <= 1 then scenario else scenario + "-" + Decimal(k)
  }

  /** Candidates begin with the name and are all different. */
  lemma CandidatesDiffer(scenario: string, j: nat, k: nat)
    requires 1 <= j < k
    ensures Candidate(scenario, k) != Candidate(scenario, j) && scenario <= Candidate(scenario, k)
    ensures Candidate(scenario, 1) == scenario && Candidate(scenario, k) == scenario + "-" + Decimal(k)
  {
    DecimalRoundTrip(j);
    DecimalRoundTrip(k);
    var stem := scenario + "-";
    assert Candidate(scenario, k)[|stem|..] == Decimal(k);
    assert j > 1 ==> Candidate(scenario, j)[|stem|..] == Decimal(j);
  }

  datatype Policy = KeepName | NewScenario | Reject
  datatype Resolved = Write(scenario: string, renamed: bool) | Conflict | NoFreeName

  /** The k-th candidate is the first of them without a pointer. */
  ghost predicate FirstFree(store: Store, scenario: string, decisionType: string, k: int, name: string) {
    && k >= 1 && name == Candidate(scenario, k) && !Exists(store, name, decisionType)
    && forall j | 1 <= j < k :: Exists(store, Candidate(scenario, j), decisionType)
  }

  ghost predicate AllTaken(store: Store, scenario: string, decisionType: string, limit: nat) {
    && Exists(store, scenario, decisionType)
    && forall j | 1 <= j <= limit :: Exists(store, Candidate(scenario, j), decisionType)
  }

  const SIBLINGS: nat := 1000

  /** What each policy answers: a free name is always kept; of a taken one,
      new_scenario writes to the least free sibling. */
  ghost predicate Resolves(store: Store, policy: Policy, scenario: string, decisionType: string, r: Resolved) {
    var taken := Exists(store, scenario, decisionType);
    match policy
    case KeepName => r == Write(scenario, false)
    case Reject => r == if taken then Conflict else Write(scenario, false)
    case NewScenario =>
      match r
      case Write(name, renamed) =>
        renamed == taken && exists k :: (k == 1 || k <= SIBLINGS) && FirstFree(store, scenario, decisionType, k, name)
      case NoFreeName => AllTaken(store, scenario, decisionType, SIBLINGS)
      case Conflict => false
  }

  /** The policy leaves no choice. */
  lemma ResolvesOnce(store: Store, policy: Policy, scenario: string, decisionType: string, r: Resolved, q: Resolved)
    requires Resolves(store, policy, scenario, decisionType, r) && Resolves(store, policy, scenario, decisionType, q)
    ensures r == q
  {
    hide Exists, Candidate;
    if policy == NewScenario && r.Write? && q.Write? {
      var k :| (k == 1 || k <= SIBLINGS) && FirstFree(store, scenario, decisionType, k, r.scenario);
      var l :| (l == 1 || l <= SIBLINGS) && FirstFree(store, scenario, decisionType, l, q.scenario);
      assert k == l;
    } else if policy == NewScenario && (r.Write? || q.Write?) {
      CandidateOne(scenario);
    }
  }

  lemma NotTheName(scenario: string, k: nat)
    ensures scenario + "-" + Decimal(k) != scenario
  {
    assert |scenario + "-" + Decimal(k)| > |scenario|;
  }

  lemma CandidateOne(scenario: string)
    ensures Candidate(scenario, 1) == scenario
  {}

  class CalibrationRegistry {
    const config: Config
    const prefix: string
    var store: Store
    var cache: Cache

    constructor (config: Config, prefix: string, store: Store)
      requires config.Valid()
      ensures this.config == config && this.prefix == prefix && this.store == store && cache == map[]
    {
      this.config := config;
      this.prefix := prefix;
      this.store := store;
      this.cache := map[];
    }

    method SaveTemperature(pair: Pair, version: string, scaler: TemperatureScaler) returns (key: Key)
      modifies this`store
      ensures key == Blob(pair, version, Temperature) && store == old(store)[key := scaler.ToDict()]
    {
      key := Blob(pair, version, Temperature);
      store := store[key := scaler.ToDict()];
    }

    method SaveIsotonic(
      pair: Pair, version: string, calibrators: seq<Option<IsotonicCalibrator>>, classNames: Option<seq<string>>)
      returns (key: Key)
      modifies this`store
      ensures key == Blob(pair, version, Isotonic) && store == old(store)[key := IsotonicJson(calibrators, classNames)]
    {
      key := Blob(pair, version, Isotonic);
      store := store[key := IsotonicJson(calibrators, classNames)];
    }

    method SaveNumeric(pair: Pair, version: string, calibrator: NumericCalibrator) returns (key: Key)
      modifies this`store
      ensures key == Blob(pair, version, Numeric) && store == old(store)[key := calibrator.ToDict()]
    {
      key := Blob(pair, version, Numeric);
      store := store[key := calibrator.ToDict()];
    }

    method CommitVersion(pair: Pair, version: string, fit: Fit) returns (manifestKey: Key)
      modifies this`store
      ensures manifestKey == Blob(pair, version, Manifest)
      ensures store
              == old(store)[manifestKey := ManifestJson(pair, version, fit)]
                           [Latest(pair) := PointerJson(version, fit.info.createdAt)]
    {
      manifestKey := Blob(pair, version, Manifest);
      store := store[manifestKey := ManifestJson(pair, version, fit)];
      store := store[Latest(pair) := PointerJson(version, fit.info.createdAt)];
    }

    /** The write sequence of both training functions, uninterrupted: it is the
        trainer's steps of the protocol in order. */
    method Publish(pair: Pair, version: string, fit: Fit)
      requires ValidFit(fit) && version != ""
      requires forall name :: Blob(pair, version, name) !in store
      modifies this`store, this`cache
      ensures store == WriteAll(old(store), Writes(pair, version, fit))
      ensures cache == Cleared(old(cache), Some(pair.scenario), Some(pair.decisionType))
      ensures LoadUncached(store, pair, None) == Served(Some(BundleOf(pair, version, fit)))
      ensures forall key: Key | key != Latest(pair) && !(key.Blob? && key.pair == pair && key.version == version) ::
                Read(store, key) == Read(old(store), key)
    {
      WriteAllFour(store, Writes(pair, version, fit));
      CommitThenLoad(store, pair, version, fit);
      var _ := SaveTemperature(pair, version, fit.temperature);
      match fit {
        case ClassFit(_, calibrators, classNames, _) =>
          var _ := SaveIsotonic(pair, version, calibrators, classNames);
        case NumericFit(_, numeric, _, _) =>
          var _ := SaveNumeric(pair, version, numeric);
      }
      var _ := CommitVersion(pair, version, fit);
      var _ := ClearCache(Some(pair.scenario), Some(pair.decisionType));
    }

    /** The reads of `_load_uncached`, one object at a time. */
    method ReadBundle(pair: Pair, pin: Option<string>) returns (outcome: Outcome)
      ensures outcome == LoadUncached(store, pair, pin)
    {
      var version: string;
      match pin {
        case None =>
          var pointer := PointerVersion(Read(store, Latest(pair)));
          if pointer.None? {
            return Served(None);
          }
          version := pointer.value;
        case Some(v) =>
          if Read(store, Blob(pair, v, Manifest)).None? {
            return Raised(NoSuchVersion);
          }
          version := v;
      }
      var manifest := Read(store, Blob(pair, version, Manifest));
      var temperature := Read(store, Blob(pair, version, Temperature));
      if temperature.None? {
        return Raised(Inconsistent);
      }
      var isotonic := Read(store, Blob(pair, version, Isotonic));
      var numeric := Read(store, Blob(pair, version, Numeric));
      outcome := Assemble(pair, version, manifest, temperature.value, isotonic, numeric);
    }

    /** `min(self._cache, key=...)`: some entry closest to expiry. */
    method ClosestEntry() returns (victim: CacheKey)
      requires cache != map[]
      ensures ClosestToExpiry(cache, victim)
      ensures victim in cache && forall k | k in cache :: cache[victim].expiry <= cache[k].expiry
    {
      var rest := cache.Keys;
      victim :| victim in rest;
      rest := rest - {victim};
      while rest != {}
        invariant rest <= cache.Keys && victim in cache
        invariant forall k | k in cache && k !in rest :: cache[victim].expiry <= cache[k].expiry
        decreases |rest|
      {
        var k :| k in rest;
        rest := rest - {k};
        if cache[k].expiry < cache[victim].expiry {
          victim := k;
        }
      }
    }

    /** One call with the clock it read: exactly the reader's steps run without
        interruption. */
    method LoadCalibration(call: Call, now: real) returns (outcome: Outcome)
      requires config.Valid()
      modifies this`cache
      ensures config.ttl > 0.0 && Hit(old(cache), call.Slot(), now) ==>
                outcome == CheckClasses(old(cache)[call.Slot()].bundle, call.numClasses) && cache == old(cache)
      ensures config.ttl > 0.0 && call.Slot() in old(cache) && old(cache)[call.Slot()].expiry > now ==>
                AnswersWith(old(cache)[call.Slot()].bundle, call.numClasses, outcome)
      ensures !(config.ttl > 0.0 && call.Slot() in old(cache) && old(cache)[call.Slot()].expiry > now) ==>
                match LoadUncached(store, call.pair, call.pin)
                case Served(bundle) => AnswersWith(bundle, call.numClasses, outcome)
                case Raised(error) => outcome == Raised(error)
      ensures !(config.ttl > 0.0 && Hit(old(cache), call.Slot(), now)) ==>
                outcome == Checked(LoadUncached(store, call.pair, call.pin), call.numClasses)
      ensures !(config.ttl > 0.0 && Hit(old(cache), call.Slot(), now)) ==>
                match LoadUncached(store, call.pair, call.pin)
                case Raised(_) => cache == old(cache)
                case Served(bundle) =>
                  if config.ttl == 0.0 then cache == old(cache)
                  else StoredIn(config, old(cache), call.Slot(), Entry(now + config.ttl, bundle), cache)
      ensures |old(cache)| <= config.maxEntries ==> |cache| <= config.maxEntries
      ensures forall k | k in old(cache) && k !in cache ::
                |old(cache)| >= config.maxEntries && forall other | other in old(cache) ::
                    old(cache)[k].expiry <= old(cache)[other].expiry
    {
      var slot := call.Slot();
      if config.ttl > 0.0 {
        if slot in cache && cache[slot].expiry > now {
          return CheckClasses(cache[slot].bundle, call.numClasses);
        }
      }
      var read := ReadBundle(call.pair, call.pin);
      match read {
        case Raised(error) => return read;
        case Served(bundle) =>
          if config.ttl > 0.0 {
            ghost var before := cache;
            var entry := Entry(now + config.ttl, bundle);
            var victim := slot;
            if |cache| >= config.maxEntries {
              victim := ClosestEntry();
              cache := cache - {victim};
            }
            cache := cache[slot := entry];
            assert MustEvict(config, before) ==> ClosestToExpiry(before, victim);
            assert cache == Inserted(config, before, slot, entry, victim);
            if |before| <= config.maxEntries {
              InsertKeepsSize(config, before, slot, entry, victim);
            }
          }
          outcome := CheckClasses(bundle, call.numClasses);
      }
    }

    /** Collects the selected keys, then pops them one by one. */
    method ClearCache(scenario: Option<string>, decisionType: Option<string>) returns (removed: nat)
      modifies this`cache
      ensures cache == Cleared(old(cache), scenario, decisionType)
      ensures removed == |old(cache)| - |cache|
      ensures forall k | k in old(cache) ::
                k in cache <==> match (scenario, decisionType)
                                case (None, _) => false
                                case (Some(s), None) => k.pair.scenario != s
                                case (Some(s), Some(d)) => k.pair != Pair(s, d)
      ensures forall k | k in cache :: k in old(cache) && cache[k] == old(cache)[k]
    {
      if scenario.None? {
        removed := |cache|;
        cache := map[];
        return;
      }
      ghost var before := cache;
      var keys := set k | k in cache && Selected(k, scenario, decisionType);
      removed := |keys|;
      var rest := keys;
      while rest != {}
        invariant rest <= keys
        invariant cache == before - (keys - rest)
        decreases |rest|
      {
        var k :| k in rest;
        RemoveOneMore(before, keys, rest, k);
        rest := rest - {k};
        cache := cache - {k};
      }
      assert keys - rest == keys;
      RemovedSize(before, keys);
      RemovedIsCleared(before, keys, scenario, decisionType);
    }

    // ---- listings over key strings ----

    method ListKeys(base: string) returns (names: seq<string>, ghost keys: seq<Key>)
      ensures |names| == |keys|
      ensures forall i | 0 <= i < |keys| :: keys[i] in store && names[i] == Render(prefix, keys[i])
      ensures forall i, j | 0 <= i < j < |keys| :: keys[i] != keys[j]
      ensures forall key | key in store && base <= Render(prefix, key) :: key in keys
    {
      hide Render;
      var rest := store.Keys;
      names, keys := [], [];
      while rest != {}
        invariant rest <= store.Keys
        invariant |names| == |keys|
        invariant forall i | 0 <= i < |keys| ::
                 keys[i] in store && keys[i] !in rest && names[i] == Render(prefix, keys[i])
        invariant forall i, j | 0 <= i < j < |keys| :: keys[i] != keys[j]
        invariant forall key | key in store && key !in rest && base <= Render(prefix, key) :: key in keys
        decreases |rest|
      {
        var key :| key in rest;
        rest := rest - {key};
        if base <= Render(prefix, key) {
          names := names + [Render(prefix, key)];
          keys := keys + [key];
        }
      }
    }

    /** `read_json` by key string. */
    method ReadJson(name: string, ghost key: Key) returns (value: Json)
      requires PlainStore(store) && key in store && name == Render(prefix, key)
      ensures value == store[key]
    {
      var k :| k in store && Render(prefix, k) == name;
      RenderInjective(prefix, k, key);
      value := store[k];
    }

    /** Every version with a manifest, once each, newest id first. */
    method ListVersions(pair: Pair) returns (rows: seq<VersionRow>)
      requires PlainStore(store) && SlashFree(pair.scenario) && SlashFree(pair.decisionType)
      ensures multiset(rows) == multiset(VersionRows(store, pair))
      ensures Sorted(rows, NewestFirst)
      ensures |rows| == |VersionRows(store, pair)|
    {
      hide Render, ParseManifestKey, VersionsBase, Sort, PointerVersion, PlainKey, SlashFree;
      var base := VersionsBase(prefix, pair);
      var current := PointerVersion(Read(store, Latest(pair)));
      ghost var row := VersionRowFor(pair, current);
      rows := [];
      var names, keys := ListKeys(base);
      for i := 0 to |names|
        invariant rows == Collect(keys[..i], row)
      {
        ManifestKeyParses(prefix, pair, keys[i]);
        CollectNext(keys, i, row);
        var parsed := ParseManifestKey(base, names[i]);
        if parsed.Some? {
          rows := rows + [VersionRow(parsed.value, current == parsed)];
        }
      }
      assert keys[..|names|] == keys;
      forall key | key in store && IsManifest(key, pair) ensures key in keys {
        ManifestUnderBase(prefix, pair, key);
      }
      ManifestsListed(pair, keys);
      CollectOnce(keys, row);
      SameSize(rows, VersionRows(store, pair));
      NewestFirstTotal();
      SortSorts(rows, NewestFirst);
      rows := Sort(rows, NewestFirst);
      SameSize(rows, VersionRows(store, pair));
    }

    lemma ManifestsListed(pair: Pair, keys: seq<Key>)
      requires forall i | 0 <= i < |keys| :: keys[i] in store
      requires forall key | key in store && IsManifest(key, pair) :: key in keys
      ensures CollectSet(keys, VersionRowFor(pair, PointerVersion(Read(store, Latest(pair)))))
              == VersionRows(store, pair)
    {
      var row := VersionRowFor(pair, PointerVersion(Read(store, Latest(pair))));
      forall r | r in VersionRows(store, pair) ensures r in CollectSet(keys, row) {
        var key :| key in store && IsManifest(key, pair) && row(key) == Some(r);
        CollectSetGets(keys, row, key);
      }
      forall r | r in CollectSet(keys, row) ensures r in VersionRows(store, pair) {
        var key := CollectSetHas(keys, row, r);
      }
    }

    /** Every pair with a pointer, once each, by scenario and decision type. */
    method ListScenarios() returns (rows: seq<ScenarioRow>)
      requires PlainStore(store)
      ensures multiset(rows) == multiset(ScenarioRows(store))
      ensures Sorted(rows, ByName)
    {
      hide Render, Sort, PlainKey, VersionRows;
      var base := prefix + "/";
      ghost var row := ScenarioRowFor(store);
      rows := [];
      var names, keys := ListKeys(base);
      for i := 0 to |names|
        invariant rows == Collect(keys[..i], row)
      {
        PointerKeyParses(prefix, keys[i]);
        CollectNext(keys, i, row);
        var parsed := ParsePointerKey(prefix, names[i]);
        if parsed.Some? {
          var pointer := ReadJson(names[i], keys[i]);
          var version := PointerVersion(Some(pointer));
          if version.Some? {
            var versions := ListVersions(parsed.value);
            rows := rows + [ScenarioRow(parsed.value, version.value, |versions|)];
          }
        }
      }
      assert keys[..|names|] == keys;
      forall key | key in store && HasPointer(store, key) ensures key in keys {
        SplitRender(prefix, key);
      }
      PointersListed(keys);
      CollectOnce(keys, row);
      ByNameTotal();
      SortSorts(rows, ByName);
      rows := Sort(rows, ByName);
    }

    lemma PointersListed(keys: seq<Key>)
      requires forall i | 0 <= i < |keys| :: keys[i] in store
      requires forall key | key in store && HasPointer(store, key) :: key in keys
      ensures CollectSet(keys, ScenarioRowFor(store)) == ScenarioRows(store)
    {
      var row := ScenarioRowFor(store);
      forall r | r in ScenarioRows(store) ensures r in CollectSet(keys, row) {
        var key :| key in store && HasPointer(store, key) && row(key) == Some(r);
        CollectSetGets(keys, row, key);
      }
      forall r | r in CollectSet(keys, row) ensures r in ScenarioRows(store) {
        var key := CollectSetHas(keys, row, r);
      }
    }

    /** The first free name among the scenario and its numbered siblings. */
    method NextFreeScenario(scenario: string, decisionType: string, limit: nat) returns (name: Option<string>)
      ensures match name
              case Some(free) => exists k :: (k == 1 || k <= limit) && FirstFree(store, scenario, decisionType, k, free)
              case None => AllTaken(store, scenario, decisionType, limit)
      ensures name == Some(scenario) <==> Unpointed(store, Pair(scenario, decisionType))
      ensures match name
              case Some(free) =>
                && Unpointed(store, Pair(free, decisionType))
                && (free == scenario || exists k: nat ::
                      && 2 <= k <= limit && free == scenario + "-" + Decimal(k)
                      && forall j: nat | 2 <= j < k ::
                            !Unpointed(store, Pair(scenario + "-" + Decimal(j), decisionType)))
              case None =>
                forall k: nat | 2 <= k <= limit :: !Unpointed(store, Pair(scenario + "-" + Decimal(k), decisionType))
    {
      CandidateOne(scenario);
      ExistsIff(store, scenario, decisionType);
      if !Exists(store, scenario, decisionType) {
        assert FirstFree(store, scenario, decisionType, 1, scenario);
        return Some(scenario);
      }
      var suffix := 2;
      while suffix <= limit
        invariant 2 <= suffix
        invariant forall j | 1 <= j < suffix :: Exists(store, Candidate(scenario, j), decisionType)
        invariant forall j: nat | 2 <= j < suffix :: !Unpointed(store, Pair(scenario + "-" + Decimal(j), decisionType))
      {
        var candidate := scenario + "-" + Decimal(suffix);
        ExistsIff(store, candidate, decisionType);
        NotTheName(scenario, suffix);
        if !Exists(store, candidate, decisionType) {
          assert FirstFree(store, scenario, decisionType, suffix, candidate);
          return Some(candidate);
        }
        suffix := suffix + 1;
      }
      name := None;
    }

    /** `resolve_scenario` with the registry's default limit of siblings. */
    method ResolveScenario(policy: Policy, scenario: string, decisionType: string) returns (r: Resolved)
      ensures Resolves(store, policy, scenario, decisionType, r)
      ensures policy == KeepName ==> r == Write(scenario, false)
      ensures policy == NewScenario && r == NoFreeName ==>
                && !Unpointed(store, Pair(scenario, decisionType))
                && forall k: nat | 2 <= k <= 1000 :: !Unpointed(store, Pair(scenario + "-" + Decimal(k), decisionType))
      ensures policy != KeepName ==>
                (r == Write(scenario, false) <==> Unpointed(store, Pair(scenario, decisionType)))
      ensures policy == Reject ==> (r == Conflict <==> !Unpointed(store, Pair(scenario, decisionType)))
      ensures policy == NewScenario && r.Write? ==> Unpointed(store, Pair(r.scenario, decisionType))
    {
      CandidateOne(scenario);
      ExistsIff(store, scenario, decisionType);
      if policy == KeepName || !Exists(store, scenario, decisionType) {
        assert !Exists(store, scenario, decisionType) ==> FirstFree(store, scenario, decisionType, 1, scenario);
        return Write(scenario, false);
      }
      if policy == Reject {
        return Conflict;
      }
      var free := NextFreeScenario(scenario, decisionType, SIBLINGS);
      r := if free.Some? then Write(free.value, true) else NoFreeName;
    }

    /** A training call: the name its policy resolves to, then the writes. A fit
        under a new scenario takes the least free name, and no pair that had a
        pointer has an object changed, added or lost. */
    method Train(
      policy: Policy, scenario: string, decisionType: string, version: string, fit: Fit) returns (r: Resolved)
      requires ValidFit(fit) && version != ""
      requires forall pair, name :: Blob(pair, version, name) !in store
      modifies this`store, this`cache
      ensures Resolves(old(store), policy, scenario, decisionType, r)
      ensures !r.Write? ==> store == old(store) && cache == old(cache)
      ensures r.Write? ==>
                var pair := Pair(r.scenario, decisionType);
                && store == WriteAll(old(store), Writes(pair, version, fit))
                && LoadUncached(store, pair, None) == Served(Some(BundleOf(pair, version, fit)))
                && forall key: Key | key.pair != pair :: Read(store, key) == Read(old(store), key)
      ensures policy == NewScenario && r.Write? ==>
              LoadUncached(old(store), Pair(r.scenario, decisionType), None) == Served(None)
      ensures policy == NewScenario ==>
                forall pair | LoadUncached(old(store), pair, None) != Served(None) ::
                  && (forall key: Key | key.pair == pair :: Read(store, key) == Read(old(store), key))
                  && LoadUncached(store, pair, None) == LoadUncached(old(store), pair, None)
      ensures policy == Reject ==>
                (r == Conflict <==> LoadUncached(old(store), Pair(scenario, decisionType), None) != Served(None))
      ensures policy != KeepName ==>
                ((r == Write(scenario, false)) <==>
                   (LoadUncached(old(store), Pair(scenario, decisionType), None) == Served(None)))
    {
      ghost var before := store;
      ExistsIff(before, scenario, decisionType);
      hide WriteAll, Writes, BundleOf, LoadUncached, Exists, ValidFit, Unpointed;
      r := ResolveScenario(policy, scenario, decisionType);
      if r.Write? {
        ExistsIff(before, r.scenario, decisionType);
      }
      if r.Write? {
        var pair := Pair(r.scenario, decisionType);
        Publish(pair, version, fit);
        forall other | other != pair ensures LoadUncached(store, other, None) == LoadUncached(before, other, None) {
          SameObjectsLoad(before, store, other);
        }
      }
    }
  }
}
