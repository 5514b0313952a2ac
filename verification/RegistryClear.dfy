/** `clear_cache` is called after every fit so that the next decision reads the
    new version. A load already past its pointer read can put the old bundle
    back; this module says exactly when that can happen. */
module RegistryClear {
  import opened Options
  import opened Json
  import opened RegistryStore
  import opened RegistryProtocol
  import opened RegistryLoads

  function SlotOf(pair: Pair): CacheKey { CacheKey(pair, "") }

  /** An unpinned load of the pair that has found its version. */
  predicate Unpinned(r: Reader, pair: Pair) {
    r.call.pair == pair && r.call.pin.None?
  }

  /** What such a load is going to return. */
  function Carries(r: Reader): Option<string>
    requires r.Loading? || r.Loaded?
  {
    match r
    case Loading(_, _, version, _) => Some(version)
    case Loaded(_, _, bundle) => if bundle.Some? then Some(bundle.value.version) else None
  }

  /** A load younger than the TTL carries a version that is no longer current. */
  predicate Stale(config: Config, s: State, pair: Pair, r: Reader) {
    && (r.Loading? || r.Loaded?)
    && Unpinned(r, pair)
    && r.at + config.ttl > s.clock
    && Carries(r) != PointerVersion(Read(s.store, Latest(pair)))
  }

  predicate StaleInFlight(config: Config, s: State, pair: Pair) {
    exists id | id in s.readers :: Stale(config, s, pair, s.readers[id])
  }

  /** Some state from c up to n answers an uninterrupted unpinned load with this bundle. */
  ghost predicate SeenFrom(tr: seq<State>, c: nat, n: nat, pair: Pair, bundle: Option<Bundle>)
    requires n < |tr|
  {
    exists k :: c <= k <= n && LoadUncached(tr[k].store, pair, None) == Served(bundle)
  }

  /** The outcome of an unpinned call is that of an uninterrupted load at some
      state from c on. */
  ghost predicate FreshOutcome(tr: seq<State>, c: nat, n: nat, call: Call, outcome: Outcome)
    requires n < |tr|
  {
    exists k :: c <= k <= n && outcome == Checked(LoadUncached(tr[k].store, call.pair, None), call.numClasses)
  }

  // ---- no stale load in flight: everything later is fresh ----

  ghost predicate FreshReader(config: Config, tr: seq<State>, c: nat, n: nat, id: nat)
    requires c <= n < |tr| && id in tr[n].readers
  {
    var r := tr[n].readers[id];
    && (id !in tr[c].readers ==> r.at >= tr[c].clock)
    && match r
       case Loading(call, at, version, _) =>
         (id in tr[c].readers && at + config.ttl <= tr[c].clock)
         || (Committed(tr[n], call.pair, version)
             && SeenFrom(tr, c, n, call.pair,
                   Some(BundleOf(call.pair, version, tr[n].fits[VersionId(call.pair, version)]))))
       case Loaded(call, at, bundle) =>
         (id in tr[c].readers && at + config.ttl <= tr[c].clock) || SeenFrom(tr, c, n, call.pair, bundle)
       case Done(call, _, outcome) => id !in tr[c].readers ==> FreshOutcome(tr, c, n, call, outcome)
       case _ => true
  }

  ghost predicate FreshReaders(config: Config, tr: seq<State>, c: nat, n: nat, pair: Pair)
    requires c <= n < |tr|
  {
    forall id | id in tr[n].readers && Unpinned(tr[n].readers[id], pair) :: FreshReader(config, tr, c, n, id)
  }

  ghost predicate FreshSlot(tr: seq<State>, c: nat, n: nat, pair: Pair)
    requires c <= n < |tr|
  {
    SlotOf(pair) in tr[n].cache ==>
      var entry := tr[n].cache[SlotOf(pair)];
      entry.expiry <= tr[c].clock || SeenFrom(tr, c, n, pair, entry.bundle)
  }

  lemma SeenFromLater(tr: seq<State>, c: nat, n: nat, m: nat, pair: Pair, bundle: Option<Bundle>)
    requires n <= m < |tr| && SeenFrom(tr, c, n, pair, bundle)
    ensures SeenFrom(tr, c, m, pair, bundle)
  {
    var k :| c <= k <= n && LoadUncached(tr[k].store, pair, None) == Served(bundle);
  }

  lemma FreshOutcomeLater(tr: seq<State>, c: nat, n: nat, m: nat, call: Call, outcome: Outcome)
    requires n <= m < |tr| && FreshOutcome(tr, c, n, call, outcome)
    ensures FreshOutcome(tr, c, m, call, outcome)
  {
    var k :| c <= k <= n && outcome == Checked(LoadUncached(tr[k].store, call.pair, None), call.numClasses);
  }

  lemma SeenFromIsFresh(tr: seq<State>, c: nat, n: nat, call: Call, bundle: Option<Bundle>)
    requires n < |tr| && SeenFrom(tr, c, n, call.pair, bundle)
    ensures FreshOutcome(tr, c, n, call, CheckClasses(bundle, call.numClasses))
  {
    var k :| c <= k <= n && LoadUncached(tr[k].store, call.pair, None) == Served(bundle);
    assert CheckClasses(bundle, call.numClasses)
        == Checked(LoadUncached(tr[k].store, call.pair, None), call.numClasses);
  }

  /** Directly after a clear that dropped the pair's slot. */
  lemma FreshAtClear(config: Config, tr: seq<State>, steps: seq<Step>, c: nat, pair: Pair)
    requires Run(config, tr, steps) && c < |tr|
    requires SlotOf(pair) !in tr[c].cache && !StaleInFlight(config, tr[c], pair)
    ensures FreshReaders(config, tr, c, c, pair) && FreshSlot(tr, c, c, pair)
  {
    forall id | id in tr[c].readers && Unpinned(tr[c].readers[id], pair) ensures FreshReader(config, tr, c, c, id) {
      var r := tr[c].readers[id];
      if (r.Loading? || r.Loaded?) && r.at + config.ttl > tr[c].clock {
        assert !Stale(config, tr[c], pair, r);
        CurrentLoadIsFresh(config, tr, steps, c, id, pair);
      }
    }
  }

  /** A load that carries the current version carries the current answer. */
  lemma CurrentLoadIsFresh(config: Config, tr: seq<State>, steps: seq<Step>, c: nat, id: nat, pair: Pair)
    requires Run(config, tr, steps) && c < |tr| && id in tr[c].readers
    requires var r := tr[c].readers[id];
             (r.Loading? || r.Loaded?) && Unpinned(r, pair)
                 && Carries(r) == PointerVersion(Read(tr[c].store, Latest(pair)))
    ensures FreshReader(config, tr, c, c, id)
  {
    StoreInvInRun(config, tr, steps, c);
    var r := tr[c].readers[id];
    assert ReaderInv(config, tr, c, r) by { LoadInvInRun(config, tr, steps, c); }
    SnapshotIsOneFit(config, tr, steps, c, c, pair, None);
    if r.Loading? {
      assert LoadUncached(tr[c].store, pair, None)
          == Served(Some(BundleOf(pair, r.version, tr[c].fits[VersionId(pair, r.version)]))) by {
        VersionIsOneFit(config, tr, steps, c, c, pair, r.version);
      }
    } else {
      LoadedIsOneFit(config, tr, steps, c, pair, r);
      if r.bundle.Some? {
        VersionIsOneFit(config, tr, steps, c, c, pair, r.bundle.value.version);
      }
      assert LoadUncached(tr[c].store, pair, None) == Served(r.bundle);
    }
  }

  lemma LoadedIsOneFit(config: Config, tr: seq<State>, steps: seq<Step>, c: nat, pair: Pair, r: Reader)
    requires Run(config, tr, steps) && c < |tr| && r.Loaded? && Unpinned(r, pair) && ReaderInv(config, tr, c, r)
    ensures r.bundle.Some? ==>
              var b := r.bundle.value;
              VersionId(pair, b.version) in tr[c].fits
                  && b == BundleOf(pair, b.version, tr[c].fits[VersionId(pair, b.version)])
  {
    var k :| 0 <= k <= c && tr[k].clock >= r.at && LoadUncached(tr[k].store, pair, None) == Served(r.bundle);
    SnapshotIsOneFit(config, tr, steps, k, c, pair, None);
  }

  lemma FreshReaderStays(config: Config, tr: seq<State>, steps: seq<Step>, c: nat, n: nat, id: nat)
    requires Run(config, tr, steps) && c <= n < |steps|
    requires id in tr[n].readers && FreshReader(config, tr, c, n, id)
    requires id in tr[n + 1].readers && tr[n + 1].readers[id] == tr[n].readers[id]
    ensures FreshReader(config, tr, c, n + 1, id)
  {
    hide Next, SeenFrom, FreshOutcome, BundleOf, Complete, Init;
    var r := tr[n].readers[id];
    match r {
      case Loading(call, at, version, _) =>
        if id !in tr[c].readers || at + config.ttl > tr[c].clock {
          CommittedInRun(config, tr, steps, n, n + 1, call.pair, version);
          SeenFromLater(tr, c, n, n + 1, call.pair,
              Some(BundleOf(call.pair, version, tr[n].fits[VersionId(call.pair, version)])));
        }
      case Loaded(call, at, bundle) =>
        if id !in tr[c].readers || at + config.ttl > tr[c].clock {
          SeenFromLater(tr, c, n, n + 1, call.pair, bundle);
        }
      case Done(call, _, outcome) =>
        if id !in tr[c].readers {
          FreshOutcomeLater(tr, c, n, n + 1, call, outcome);
        }
      case _ =>
    }
  }

  /** The step of an unpinned load of the pair: the facts its move depends on. */
  predicate MovesReader(config: Config, s: State, id: nat, r': Reader) {
    && id in s.readers
    && match s.readers[id]
       case Started(call, at) =>
         r' == if config.ttl > 0.0 && Hit(s.cache, call.Slot(), at)
               then Done(call, at, CheckClasses(s.cache[call.Slot()].bundle, call.numClasses)) else Resolving(call, at)
       case Resolving(_, _) => r' == AfterRead(s.store, s.readers[id])
       case Loading(_, _, _, got) => |got| < 4 && r' == AfterRead(s.store, s.readers[id])
       case Loaded(call, at, bundle) => r' == Done(call, at, CheckClasses(bundle, call.numClasses))
       case Done(_, _, _) => false
  }

  lemma ReaderMoves(config: Config, s: State, step: Step, s': State)
    requires Next(config, s, step, s') && step.ReaderStep?
    ensures step.id in s'.readers && MovesReader(config, s, step.id, s'.readers[step.id])
    ensures s'.store == s.store && s'.fits == s.fits && s'.clock == s.clock
  {}

  /** What the moved reader carries was seen since c, unless the load is too
      old for its entry to outlive c. */
  ghost predicate MovedFresh(config: Config, tr: seq<State>, c: nat, n: nat, id: nat, pair: Pair, r': Reader)
    requires c <= n < |tr|
  {
    match r'
    case Loading(call, at, version, _) =>
      (id in tr[c].readers && at + config.ttl <= tr[c].clock)
      || (Committed(tr[n], pair, version)
          && SeenFrom(tr, c, n, pair, Some(BundleOf(pair, version, tr[n].fits[VersionId(pair, version)]))))
    case Loaded(_, at, bundle) =>
      (id in tr[c].readers && at + config.ttl <= tr[c].clock) || SeenFrom(tr, c, n, pair, bundle)
    case Done(call, _, outcome) => id !in tr[c].readers ==> FreshOutcome(tr, c, n, call, outcome)
    case _ => true
  }

  /** Past the pointer read a load can only end with its version's bundle. */
  lemma MidwayEnds(tr: seq<State>, n: nat, call: Call, at: real, version: string, got: seq<Option<Json>>)
    requires n < |tr| && Midway(tr, n, call, at, version, got)
    ensures var r' := AfterRead(tr[n].store, Loading(call, at, version, got));
            || (r'.Loading? && r'.version == version && r'.call == call && r'.at == at)
            || r' == Loaded(call, at, Some(BundleOf(call.pair, version, tr[n].fits[VersionId(call.pair, version)])))
  {
    var fit := tr[n].fits[VersionId(call.pair, version)];
    var now := got + [Read(tr[n].store, Blob(call.pair, version, LOAD_ORDER[|got|]))];
    forall j | 0 <= j < |now| ensures now[j] == Payload(call.pair, version, fit, LOAD_ORDER[j]) {
      assert Read(tr[n].store, Blob(call.pair, version, LOAD_ORDER[j]))
          == Payload(call.pair, version, fit, LOAD_ORDER[j]);
    }
    if |now| == 4 {
      AssembleRestoresFit(call.pair, version, fit);
    }
  }

  lemma ResolvedIsFresh(
    config: Config, tr: seq<State>, steps: seq<Step>, c: nat, n: nat, id: nat, pair: Pair, call: Call, at: real)
    requires Run(config, tr, steps) && c <= n < |tr| && call.pair == pair && call.pin.None?
    ensures MovedFresh(config, tr, c, n, id, pair, AfterRead(tr[n].store, Resolving(call, at)))
  {
    StoreInvInRun(config, tr, steps, n);
    var pointed := PointerVersion(Read(tr[n].store, Latest(pair)));
    if pointed.Some? {
      assert Committed(tr[n], pair, pointed.value);
      VersionIsOneFit(config, tr, steps, n, n, pair, pointed.value);
    } else {
      assert LoadUncached(tr[n].store, pair, None) == Served(None);
    }
  }

  /** The moving reader, judged in the state it moves in. */
  lemma MovedIsFresh(config: Config, tr: seq<State>, steps: seq<Step>, c: nat, n: nat, id: nat, pair: Pair, r': Reader)
    requires Run(config, tr, steps) && c <= n < |tr|
    requires FreshReaders(config, tr, c, n, pair) && FreshSlot(tr, c, n, pair)
    requires id in tr[n].readers && Unpinned(tr[n].readers[id], pair) && MovesReader(config, tr[n], id, r')
    ensures MovedFresh(config, tr, c, n, id, pair, r')
  {
    var r := tr[n].readers[id];
    assert FreshReader(config, tr, c, n, id);
    match r {
      case Started(call, at) =>
        if r'.Done? && id !in tr[c].readers {
          SeenFromIsFresh(tr, c, n, call, tr[n].cache[SlotOf(pair)].bundle);
        }
      case Resolving(call, at) => ResolvedIsFresh(config, tr, steps, c, n, id, pair, call, at);
      case Loading(call, at, version, got) =>
        assert Midway(tr, n, call, at, version, got) by {
          LoadInvInRun(config, tr, steps, n);
          assert ReaderInv(config, tr, n, r);
        }
        MidwayEnds(tr, n, call, at, version, got);
      case Loaded(call, at, bundle) =>
        if id !in tr[c].readers {
          SeenFromIsFresh(tr, c, n, call, bundle);
        }
      case Done(_, _, _) =>
    }
  }

  lemma MoveKeepsCall(config: Config, s: State, id: nat, r': Reader)
    requires MovesReader(config, s, id, r')
    ensures r'.call == s.readers[id].call && r'.at == s.readers[id].at
  {}

  /** The same judgement one state later. */
  lemma MovedStaysFresh(config: Config, tr: seq<State>, steps: seq<Step>, c: nat, n: nat, id: nat, pair: Pair)
    requires Run(config, tr, steps) && c <= n < |steps|
    requires id in tr[n + 1].readers && Unpinned(tr[n + 1].readers[id], pair)
    requires id !in tr[c].readers ==> tr[n + 1].readers[id].at >= tr[c].clock
    requires MovedFresh(config, tr, c, n, id, pair, tr[n + 1].readers[id])
    ensures FreshReader(config, tr, c, n + 1, id)
  {
    hide Next, SeenFrom, FreshOutcome, BundleOf, Complete, Init;
    var r' := tr[n + 1].readers[id];
    match r' {
      case Loading(_, at, version, _) =>
        if !(id in tr[c].readers && at + config.ttl <= tr[c].clock) {
          CommittedInRun(config, tr, steps, n, n + 1, pair, version);
          SeenFromLater(tr, c, n, n + 1, pair, Some(BundleOf(pair, version, tr[n].fits[VersionId(pair, version)])));
        }
      case Loaded(_, at, bundle) =>
        if !(id in tr[c].readers && at + config.ttl <= tr[c].clock) {
          SeenFromLater(tr, c, n, n + 1, pair, bundle);
        }
      case Done(call, _, outcome) =>
        if id !in tr[c].readers {
          FreshOutcomeLater(tr, c, n, n + 1, call, outcome);
        }
      case _ =>
    }
  }

  lemma {:induction false} ClockInRun(config: Config, tr: seq<State>, steps: seq<Step>, c: nat, n: nat)
    requires Run(config, tr, steps) && c <= n < |tr|
    ensures tr[c].clock <= tr[n].clock
    decreases n
  {
    if c < n {
      ClockInRun(config, tr, steps, c, n - 1);
      assert Next(config, tr[n - 1], steps[n - 1], tr[n]) by { StepInRun(config, tr, steps, n - 1); }
      ClockGrows(config, tr[n - 1], steps[n - 1], tr[n]);
    }
  }

  lemma {:induction false} ReaderIdsInRun(config: Config, tr: seq<State>, steps: seq<Step>, c: nat, n: nat)
    requires Run(config, tr, steps) && c <= n < |tr|
    ensures tr[c].readers.Keys <= tr[n].readers.Keys
    decreases n
  {
    if c < n {
      ReaderIdsInRun(config, tr, steps, c, n - 1);
      assert Next(config, tr[n - 1], steps[n - 1], tr[n]) by { StepInRun(config, tr, steps, n - 1); }
      ReaderIdsGrow(config, tr[n - 1], steps[n - 1], tr[n]);
    }
  }

  lemma ReaderIdsGrow(config: Config, s: State, step: Step, s': State)
    requires Next(config, s, step, s')
    ensures s.readers.Keys <= s'.readers.Keys
  {}

  lemma FreshReadersKept(config: Config, tr: seq<State>, steps: seq<Step>, c: nat, n: nat, pair: Pair)
    requires Run(config, tr, steps) && c <= n < |steps|
    requires FreshReaders(config, tr, c, n, pair) && FreshSlot(tr, c, n, pair)
    ensures FreshReaders(config, tr, c, n + 1, pair)
  {
    var s, s' := tr[n], tr[n + 1];
    assert Next(config, s, steps[n], s') by { StepInRun(config, tr, steps, n); }
    ClockInRun(config, tr, steps, c, n);
    ReaderIdsInRun(config, tr, steps, c, n);
    forall id | id in s'.readers && Unpinned(s'.readers[id], pair) ensures FreshReader(config, tr, c, n + 1, id) {
      if steps[n].ReaderStep? && steps[n].id == id {
        ReaderMoves(config, s, steps[n], s');
        MoveKeepsCall(config, s, id, s'.readers[id]);
        assert FreshReader(config, tr, c, n, id);
        MovedIsFresh(config, tr, steps, c, n, id, pair, s'.readers[id]);
        MovedStaysFresh(config, tr, steps, c, n, id, pair);
      } else {
        OtherReaders(config, s, steps[n], s', id);
        if id in s.readers {
          assert FreshReader(config, tr, c, n, id);
          FreshReaderStays(config, tr, steps, c, n, id);
        }
      }
    }
  }

  lemma FreshSlotKept(config: Config, tr: seq<State>, steps: seq<Step>, c: nat, n: nat, pair: Pair)
    requires Run(config, tr, steps) && c <= n < |steps|
    requires FreshReaders(config, tr, c, n, pair) && FreshSlot(tr, c, n, pair)
    ensures FreshSlot(tr, c, n + 1, pair)
  {
    assert CacheMove(config, tr[n], steps[n], tr[n + 1]) by {
      StepInRun(config, tr, steps, n);
      CacheMoves(config, tr[n], steps[n], tr[n + 1]);
    }
    FreshSlotMoves(config, tr, steps, c, n, pair);
  }

  lemma FreshSlotMoves(config: Config, tr: seq<State>, steps: seq<Step>, c: nat, n: nat, pair: Pair)
    requires Run(config, tr, steps) && c <= n < |steps| && CacheMove(config, tr[n], steps[n], tr[n + 1])
    requires FreshReaders(config, tr, c, n, pair) && FreshSlot(tr, c, n, pair)
    ensures FreshSlot(tr, c, n + 1, pair)
  {
    var slot := SlotOf(pair);
    if slot in tr[n + 1].cache && tr[n + 1].cache[slot].expiry > tr[c].clock {
      if IsInsert(config, tr[n], steps[n]) && tr[n].readers[steps[n].id].call.Slot() == slot {
        var id := steps[n].id;
        var r := tr[n].readers[id];
        assert r.call.pin != Some("") by {
          LoadInvInRun(config, tr, steps, n);
          assert ReaderInv(config, tr, n, r);
        }
        assert FreshReader(config, tr, c, n, id);
        SeenFromLater(tr, c, n, n + 1, pair, r.bundle);
      } else {
        assert slot in tr[n].cache && tr[n].cache[slot] == tr[n + 1].cache[slot];
        SeenFromLater(tr, c, n, n + 1, pair, tr[n].cache[slot].bundle);
      }
    }
  }

  lemma {:induction false} FreshInRun(config: Config, tr: seq<State>, steps: seq<Step>, c: nat, n: nat, pair: Pair)
    requires Run(config, tr, steps) && c <= n < |tr|
    requires SlotOf(pair) !in tr[c].cache && !StaleInFlight(config, tr[c], pair)
    ensures FreshReaders(config, tr, c, n, pair) && FreshSlot(tr, c, n, pair)
    decreases n
  {
    if c == n {
      FreshAtClear(config, tr, steps, c, pair);
    } else {
      FreshInRun(config, tr, steps, c, n - 1, pair);
      assert FreshReaders(config, tr, c, n, pair) by { FreshReadersKept(config, tr, steps, c, n - 1, pair); }
      assert FreshSlot(tr, c, n, pair) by { FreshSlotKept(config, tr, steps, c, n - 1, pair); }
    }
  }

  /** Once the slot is clear and no stale load is in flight, every unpinned call
      that starts afterwards returns an answer from after the clear. */
  lemma ClearedMeansFresh(config: Config, tr: seq<State>, steps: seq<Step>, c: nat, n: nat, id: nat)
    requires Run(config, tr, steps) && c <= n < |tr|
    requires id !in tr[c].readers && id in tr[n].readers && tr[n].readers[id].Done? && tr[n].readers[id].call.pin.None?
    requires var pair := tr[n].readers[id].call.pair;
             SlotOf(pair) !in tr[c].cache && !StaleInFlight(config, tr[c], pair)
    ensures var r := tr[n].readers[id];
            FreshOutcome(tr, c, n, r.call, r.outcome)
  {
    FreshInRun(config, tr, steps, c, n, tr[n].readers[id].call.pair);
    assert FreshReader(config, tr, c, n, id);
  }

  // ---- a stale load in flight: some continuation serves the old bundle ----

  lemma Extend(config: Config, tr: seq<State>, steps: seq<Step>, step: Step, s': State)
    requires Run(config, tr, steps) && Next(config, tr[|tr| - 1], step, s')
    ensures Run(config, tr + [s'], steps + [step])
  {
    var tr2, steps2 := tr + [s'], steps + [step];
    forall k | 0 <= k < |steps2| ensures Next(config, tr2[k], steps2[k], tr2[k + 1]) {
      if k < |steps| {
        assert Next(config, tr[k], steps[k], tr[k + 1]);
      }
    }
  }

  lemma {:induction false} SomeClosest(cache: Cache, keys: set<CacheKey>) returns (k: CacheKey)
    requires keys <= cache.Keys && keys != {}
    ensures k in keys && forall other | other in keys :: cache[k].expiry <= cache[other].expiry
    decreases |keys|
  {
    var x :| x in keys;
    var rest := keys - {x};
    if rest == {} {
      k := x;
      assert keys == {x};
    } else {
      var y := SomeClosest(cache, rest);
      k := if cache[x].expiry <= cache[y].expiry then x else y;
      forall other | other in keys ensures cache[k].expiry <= cache[other].expiry {
        assert other == x || other in rest;
      }
    }
  }

  /** States from c on share the store, the clock and the set of calls. */
  predicate Frozen(tr: seq<State>, c: nat, tr2: seq<State>)
    requires c < |tr|
  {
    && tr <= tr2
    && forall k | c <= k < |tr2| :: tr2[k].store == tr[c].store && tr2[k].clock == tr[c].clock
  }

  /** One read of such a load, as the next step of the run. */
  lemma LoadStep(config: Config, tr: seq<State>, steps: seq<Step>, id: nat)
    returns (s': State, step: Step)
    requires Run(config, tr, steps) && id in tr[|tr| - 1].readers && tr[|tr| - 1].readers[id].Loading?
    ensures Run(config, tr + [s'], steps + [step])
    ensures s'.store == tr[|tr| - 1].store && s'.clock == tr[|tr| - 1].clock
    ensures s'.readers.Keys == tr[|tr| - 1].readers.Keys
    ensures var r, r' := tr[|tr| - 1].readers[id], s'.readers[id];
            && |r.got| < 4 && (r'.Loaded? || (r'.Loading? && |r'.got| == |r.got| + 1))
            && r'.call == r.call && r'.at == r.at && Carries(r') == Carries(r)
  {
    var n := |tr| - 1;
    var r := tr[n].readers[id];
    assert Midway(tr, n, r.call, r.at, r.version, r.got) by {
      LoadInvInRun(config, tr, steps, n);
      assert ReaderInv(config, tr, n, r);
    }
    MidwayEnds(tr, n, r.call, r.at, r.version, r.got);
    s' := tr[n].(readers := tr[n].readers[id := AfterRead(tr[n].store, r)]);
    step := ReaderStep(id, SlotOf(r.call.pair));
    Extend(config, tr, steps, step, s');
  }

  /** A load past its pointer read, left to run alone, gets its bundle. */
  lemma {:induction false} FinishLoad(config: Config, tr: seq<State>, steps: seq<Step>, id: nat)
    returns (tr2: seq<State>, steps2: seq<Step>)
    requires Run(config, tr, steps) && id in tr[|tr| - 1].readers
    requires tr[|tr| - 1].readers[id].Loading? || tr[|tr| - 1].readers[id].Loaded?
    ensures Run(config, tr2, steps2) && steps <= steps2 && Frozen(tr, |tr| - 1, tr2)
    ensures tr2[|tr2| - 1].readers.Keys == tr[|tr| - 1].readers.Keys
    ensures var r, r2 := tr[|tr| - 1].readers[id], tr2[|tr2| - 1].readers[id];
            r2.Loaded? && r2.call == r.call && r2.at == r.at && Carries(r2) == Carries(r)
    decreases if tr[|tr| - 1].readers[id].Loading? then 5 - |tr[|tr| - 1].readers[id].got| else 0
  {
    tr2, steps2 := tr, steps;
    if tr[|tr| - 1].readers[id].Loading? {
      var s', step := LoadStep(config, tr, steps, id);
      var tr1 := tr + [s'];
      tr2, steps2 := FinishLoad(config, tr1, steps + [step], id);
      FrozenChain(tr, tr1, tr2);
    }
  }

  lemma FrozenChain(tr: seq<State>, tr1: seq<State>, tr2: seq<State>)
    requires |tr| > 0 && Frozen(tr, |tr| - 1, tr1) && Frozen(tr1, |tr1| - 1, tr2)
    ensures Frozen(tr, |tr| - 1, tr2)
  {
    forall k | |tr| - 1 <= k < |tr2| ensures tr2[k].store == tr[|tr| - 1].store && tr2[k].clock == tr[|tr| - 1].clock {
      if k < |tr1| {
        assert tr2[k] == tr1[k];
      }
    }
  }

  lemma PointedVersion(store: Store, pair: Pair, bundle: Option<Bundle>)
    requires LoadUncached(store, pair, None) == Served(bundle)
    ensures PointerVersion(Read(store, Latest(pair))) == if bundle.Some? then Some(bundle.value.version) else None
  {}

  /** One more unpinned call of the pair that hits the cache. */
  lemma HitCall(config: Config, tr: seq<State>, steps: seq<Step>, pair: Pair, id: nat)
    returns (tr2: seq<State>, steps2: seq<Step>)
    requires Run(config, tr, steps) && config.ttl > 0.0 && id !in tr[|tr| - 1].readers
    requires Hit(tr[|tr| - 1].cache, SlotOf(pair), tr[|tr| - 1].clock)
    ensures Run(config, tr2, steps2) && steps <= steps2 && Frozen(tr, |tr| - 1, tr2)
    ensures id in tr2[|tr2| - 1].readers
    ensures tr2[|tr2| - 1].readers[id]
         == Done(Call(pair, None, None), tr[|tr| - 1].clock, Served(tr[|tr| - 1].cache[SlotOf(pair)].bundle))
  {
    var s := tr[|tr| - 1];
    var call := Call(pair, None, None);
    var s1 := s.(readers := s.readers[id := Started(call, s.clock)]);
    Extend(config, tr, steps, StartCall(id, call), s1);
    var s2 := s1.(readers := s1.readers[id := Done(call, s.clock, CheckClasses(s.cache[SlotOf(pair)].bundle, None))]);
    Extend(config, tr + [s1], steps + [StartCall(id, call)], ReaderStep(id, SlotOf(pair)), s2);
    tr2, steps2 := tr + [s1] + [s2], steps + [StartCall(id, call)] + [ReaderStep(id, SlotOf(pair))];
  }

  lemma InsertLoaded(config: Config, tr: seq<State>, steps: seq<Step>, id: nat)
    returns (tr2: seq<State>, steps2: seq<Step>)
    requires Run(config, tr, steps) && config.ttl > 0.0
    requires id in tr[|tr| - 1].readers && tr[|tr| - 1].readers[id].Loaded?
    ensures Run(config, tr2, steps2) && steps <= steps2 && Frozen(tr, |tr| - 1, tr2)
    ensures tr2[|tr2| - 1].readers.Keys == tr[|tr| - 1].readers.Keys
    ensures var r := tr[|tr| - 1].readers[id];
            && r.call.Slot() in tr2[|tr2| - 1].cache
            && tr2[|tr2| - 1].cache[r.call.Slot()] == Entry(r.at + config.ttl, r.bundle)
  {
    var s := tr[|tr| - 1];
    var r := s.readers[id];
    var victim := r.call.Slot();
    if MustEvict(config, s.cache) {
      assert s.cache.Keys != {};
      victim := SomeClosest(s.cache, s.cache.Keys);
    }
    var s' := s.(cache := Inserted(config, s.cache, r.call.Slot(), Entry(r.at + config.ttl, r.bundle), victim),
                 readers := s.readers[id := Done(r.call, r.at, CheckClasses(r.bundle, r.call.numClasses))]);
    Extend(config, tr, steps, ReaderStep(id, victim), s');
    assert s'.readers.Keys == s.readers.Keys;
    tr2, steps2 := tr + [s'], steps + [ReaderStep(id, victim)];
  }

  lemma {:induction false} FreshId(ids: set<nat>) returns (id: nat)
    ensures id !in ids
  {
    var bound := SomeBound(ids);
    id := bound;
  }

  lemma {:induction false} SomeBound(ids: set<nat>) returns (bound: nat)
    ensures forall i | i in ids :: i < bound
    decreases |ids|
  {
    if ids == {} {
      bound := 0;
    } else {
      var x :| x in ids;
      var b := SomeBound(ids - {x});
      bound := if b > x then b else x + 1;
      forall i | i in ids ensures i < bound {
        assert i == x || i in ids - {x};
      }
    }
  }

  /** The load finishes, fills the slot, and a call that starts after the clear
      is served its bundle, which is current in no state from the clear on. */
  lemma StaleLoadIsServed(config: Config, tr: seq<State>, steps: seq<Step>, pair: Pair)
    returns (tr2: seq<State>, steps2: seq<Step>, id: nat)
    requires Run(config, tr, steps) && StaleInFlight(config, tr[|tr| - 1], pair)
    ensures Run(config, tr2, steps2) && tr <= tr2 && steps <= steps2
    ensures id !in tr[|tr| - 1].readers && id in tr2[|tr2| - 1].readers
    ensures var r := tr2[|tr2| - 1].readers[id];
            r.Done? && Unpinned(r, pair) && !FreshOutcome(tr2, |tr| - 1, |tr2| - 1, r.call, r.outcome)
  {
    var c := |tr| - 1;
    var slow :| slow in tr[c].readers && Stale(config, tr[c], pair, tr[c].readers[slow]);
    var r := tr[c].readers[slow];
    var tr3, steps3 := FinishLoad(config, tr, steps, slow);
    assert r.at <= tr[c].clock by { ReaderAtPast(config, tr, steps, c, slow); }
    var tr4, steps4 := InsertLoaded(config, tr3, steps3, slow);
    var bundle := tr3[|tr3| - 1].readers[slow].bundle;
    id := FreshId(tr[c].readers.Keys);
    assert tr4[|tr4| - 1].clock == tr[c].clock;
    tr2, steps2 := HitCall(config, tr4, steps4, pair, id);
    assert tr2[|tr2| - 1].readers[id].outcome == Served(bundle);
    forall k | c <= k < |tr2| ensures tr2[k].store == tr[c].store {
      if k < |tr3| {
        assert tr2[k] == tr3[k];
      } else if k < |tr4| {
        assert tr2[k] == tr4[k];
      }
    }
    if FreshOutcome(tr2, c, |tr2| - 1, Call(pair, None, None), Served(bundle)) {
      PointedVersion(tr[c].store, pair, bundle);
      assert false;
    }
  }

  lemma {:induction false} ReaderAtPast(config: Config, tr: seq<State>, steps: seq<Step>, n: nat, id: nat)
    requires Run(config, tr, steps) && n < |tr| && id in tr[n].readers
    ensures tr[n].readers[id].at <= tr[n].clock
  {
    if n > 0 {
      var s, s' := tr[n - 1], tr[n];
      assert Next(config, s, steps[n - 1], s') by { StepInRun(config, tr, steps, n - 1); }
      ClockGrows(config, s, steps[n - 1], s');
      if id in s.readers {
        ReaderAtPast(config, tr, steps, n - 1, id);
        AtKept(config, s, steps[n - 1], s', id);
      } else {
        OtherReaders(config, s, steps[n - 1], s', id);
      }
    }
  }

  lemma AtKept(config: Config, s: State, step: Step, s': State, id: nat)
    requires Next(config, s, step, s') && id in s.readers
    ensures id in s'.readers && s'.readers[id].at == s.readers[id].at
  {
    hide Assemble, Cleared, Inserted, CheckClasses, Writes, PointerVersion, ValidFit;
  }

  /** A later state of the run in which an unpinned call of the pair that started
      after state |tr| - 1 has finished. */
  ghost predicate FinishedLater(config: Config, tr: seq<State>, steps: seq<Step>, pair: Pair,
                                tr2: seq<State>, steps2: seq<Step>, id: nat)
    requires |tr| > 0
  {
    && Run(config, tr2, steps2) && tr <= tr2 && steps <= steps2
    && id !in tr[|tr| - 1].readers && id in tr2[|tr2| - 1].readers
    && tr2[|tr2| - 1].readers[id].Done? && Unpinned(tr2[|tr2| - 1].readers[id], pair)
  }

  /** Whatever happens next, calls that start from here on are fresh. */
  ghost predicate AlwaysFresh(config: Config, tr: seq<State>, steps: seq<Step>, pair: Pair)
    requires |tr| > 0
  {
    forall tr2: seq<State>, steps2: seq<Step>, id: nat | FinishedLater(config, tr, steps, pair, tr2, steps2, id) ::
      var r := tr2[|tr2| - 1].readers[id];
      FreshOutcome(tr2, |tr| - 1, |tr2| - 1, r.call, r.outcome)
  }

  /** The clear does what it is called for exactly when, at that moment, no load
      younger than the TTL carries a superseded version. */
  lemma ClearIsEffectiveIff(config: Config, tr: seq<State>, steps: seq<Step>, pair: Pair)
    requires Run(config, tr, steps) && SlotOf(pair) !in tr[|tr| - 1].cache
    ensures AlwaysFresh(config, tr, steps, pair) <==> !StaleInFlight(config, tr[|tr| - 1], pair)
  {
    var c := |tr| - 1;
    if StaleInFlight(config, tr[c], pair) {
      var tr2, steps2, id := StaleLoadIsServed(config, tr, steps, pair);
      assert FinishedLater(config, tr, steps, pair, tr2, steps2, id);
    } else {
      forall tr2: seq<State>, steps2: seq<Step>, id: nat | FinishedLater(config, tr, steps, pair, tr2, steps2, id)
        ensures FreshOutcome(tr2, c, |tr2| - 1, tr2[|tr2| - 1].readers[id].call, tr2[|tr2| - 1].readers[id].outcome)
      {
        assert tr2[c] == tr[c];
        ClearedMeansFresh(config, tr2, steps2, c, |tr2| - 1, id);
      }
    }
  }
}
