/** What an interleaved, cached load returns: the answer an uninterrupted load
    would have given at one instant, no older than the cache TTL allows. */
module RegistryLoads {
  import opened Options
  import opened Json
  import opened RegistryStore
  import opened RegistryProtocol

  /** Some state of the run up to n, with a clock of at least `since`, answers
      an uninterrupted load of (pair, pin) with this bundle. */
  ghost predicate Seen(tr: seq<State>, n: nat, pair: Pair, pin: Option<string>, since: real, bundle: Option<Bundle>)
    requires n < |tr|
  {
    exists k :: 0 <= k <= n && tr[k].clock >= since && LoadUncached(tr[k].store, pair, pin) == Served(bundle)
  }

  /** No older than the cache lets it be: an instant after `at - ttl`, or not
      before the call at all. */
  predicate Recent(config: Config, clock: real, at: real) {
    clock > at - config.ttl || clock >= at
  }

  /** The call's outcome is that of an uninterrupted load at one recent instant. */
  ghost predicate Explained(
    config: Config, tr: seq<State>, n: nat, pair: Pair, pin: Option<string>, numClasses: Option<int>, at: real,
    outcome: Outcome)
    requires n < |tr|
  {
    exists k :: 0 <= k <= n && Recent(config, tr[k].clock, at)
                && outcome == Checked(LoadUncached(tr[k].store, pair, pin), numClasses)
  }

  /** The empty pin shares the unpinned cache entry, so it may be answered as
      if no pin had been given. */
  ghost predicate CallExplained(config: Config, tr: seq<State>, n: nat, call: Call, at: real, outcome: Outcome)
    requires n < |tr|
  {
    || Explained(config, tr, n, call.pair, call.pin, call.numClasses, at, outcome)
    || (call.pin == Some("") && Explained(config, tr, n, call.pair, None, call.numClasses, at, outcome))
  }

  /** The pin under which a cache slot's content was loaded. */
  function SlotPin(k: CacheKey): Option<string> {
    if k.version == "" then None else Some(k.version)
  }

  /** What is known of a call that has resolved its version: the version is
      complete, and everything read so far is that version's. */
  ghost predicate Midway(tr: seq<State>, n: nat, call: Call, at: real, version: string, got: seq<Option<Json>>)
    requires n < |tr|
  {
    && |got| < 4
    && call.pin != Some("")
    && Committed(tr[n], call.pair, version)
    && (forall j | 0 <= j < |got| :: got[j] == Read(tr[n].store, Blob(call.pair, version, LOAD_ORDER[j])))
    && Seen(tr, n, call.pair, call.pin, at,
          Some(BundleOf(call.pair, version, tr[n].fits[VersionId(call.pair, version)])))
  }

  ghost predicate ReaderInv(config: Config, tr: seq<State>, n: nat, r: Reader)
    requires n < |tr|
  {
    match r
    case Started(_, at) => at <= tr[n].clock
    case Resolving(_, at) => at <= tr[n].clock
    case Loading(call, at, version, got) => Midway(tr, n, call, at, version, got)
    case Loaded(call, at, bundle) => call.pin != Some("") && Seen(tr, n, call.pair, call.pin, at, bundle)
    case Done(call, at, outcome) => CallExplained(config, tr, n, call, at, outcome)
  }

  /** A cached bundle was the answer at some instant in the TTL before it expires. */
  ghost predicate CacheInv(config: Config, tr: seq<State>, n: nat)
    requires n < |tr|
  {
    && |tr[n].cache| <= config.maxEntries
    && forall k | k in tr[n].cache ::
         Seen(tr, n, k.pair, SlotPin(k), tr[n].cache[k].expiry - config.ttl, tr[n].cache[k].bundle)
  }

  ghost predicate ReadersInv(config: Config, tr: seq<State>, n: nat)
    requires n < |tr|
  {
    forall id | id in tr[n].readers :: ReaderInv(config, tr, n, tr[n].readers[id])
  }

  ghost predicate LoadInv(config: Config, tr: seq<State>, n: nat)
    requires n < |tr|
  {
    CacheInv(config, tr, n) && ReadersInv(config, tr, n)
  }

  // ---- what was seen stays seen ----

  lemma SeenLater(tr: seq<State>, n: nat, m: nat, pair: Pair, pin: Option<string>, since: real, bundle: Option<Bundle>)
    requires n <= m < |tr| && Seen(tr, n, pair, pin, since, bundle)
    ensures Seen(tr, m, pair, pin, since, bundle)
  {
    var k :| 0 <= k <= n && tr[k].clock >= since && LoadUncached(tr[k].store, pair, pin) == Served(bundle);
  }

  lemma ExplainedLater(config: Config, tr: seq<State>, n: nat, m: nat, call: Call, at: real, outcome: Outcome)
    requires n <= m < |tr| && CallExplained(config, tr, n, call, at, outcome)
    ensures CallExplained(config, tr, m, call, at, outcome)
  {
    if Explained(config, tr, n, call.pair, call.pin, call.numClasses, at, outcome) {
      var k :| 0 <= k <= n && Recent(config, tr[k].clock, at)
               && outcome == Checked(LoadUncached(tr[k].store, call.pair, call.pin), call.numClasses);
    } else {
      var k :| 0 <= k <= n && Recent(config, tr[k].clock, at)
               && outcome == Checked(LoadUncached(tr[k].store, call.pair, None), call.numClasses);
    }
  }

  lemma SeenNow(tr: seq<State>, n: nat, pair: Pair, pin: Option<string>, since: real, bundle: Option<Bundle>)
    requires n < |tr| && tr[n].clock >= since && LoadUncached(tr[n].store, pair, pin) == Served(bundle)
    ensures Seen(tr, n, pair, pin, since, bundle)
  {}

  lemma ExplainedNow(config: Config, tr: seq<State>, n: nat, call: Call, at: real, outcome: Outcome)
    requires n < |tr| && tr[n].clock >= at
    requires outcome == Checked(LoadUncached(tr[n].store, call.pair, call.pin), call.numClasses)
    ensures CallExplained(config, tr, n, call, at, outcome)
  {
    assert Recent(config, tr[n].clock, at);
  }

  /** An answer seen at a recent instant explains the checked outcome. */
  lemma SeenExplains(
    config: Config, tr: seq<State>, n: nat, call: Call, pin: Option<string>, since: real, at: real,
    bundle: Option<Bundle>)
    requires n < |tr| && Seen(tr, n, call.pair, pin, since, bundle)
    requires since >= at || since > at - config.ttl
    requires pin == call.pin || (pin.None? && call.pin == Some(""))
    ensures CallExplained(config, tr, n, call, at, CheckClasses(bundle, call.numClasses))
  {
    var k :| 0 <= k <= n && tr[k].clock >= since && LoadUncached(tr[k].store, call.pair, pin) == Served(bundle);
    assert Recent(config, tr[k].clock, at);
  }

  lemma UnchangedReaderKept(config: Config, tr: seq<State>, steps: seq<Step>, n: nat, r: Reader)
    requires Run(config, tr, steps) && n < |steps| && ReaderInv(config, tr, n, r)
    ensures ReaderInv(config, tr, n + 1, r)
  {
    assert StoreInv(tr[n]) && Next(config, tr[n], steps[n], tr[n + 1]) by { StepInRun(config, tr, steps, n); }
    match r
    case Started(_, at) => ClockGrows(config, tr[n], steps[n], tr[n + 1]);
    case Resolving(_, at) => ClockGrows(config, tr[n], steps[n], tr[n + 1]);
    case Loading(call, at, version, got) => MidwayKept(config, tr, steps, n, call, at, version, got);
    case Loaded(call, at, bundle) => SeenLater(tr, n, n + 1, call.pair, call.pin, at, bundle);
    case Done(call, at, outcome) => ExplainedLater(config, tr, n, n + 1, call, at, outcome);
  }

  lemma ClockGrows(config: Config, s: State, step: Step, s': State)
    requires Next(config, s, step, s')
    ensures s.clock <= s'.clock
  {}

  /** The objects of a complete version do not move under a slow reader. */
  lemma MidwayKept(
    config: Config, tr: seq<State>, steps: seq<Step>, n: nat, call: Call, at: real, version: string,
    got: seq<Option<Json>>)
    requires Run(config, tr, steps) && n < |steps| && Midway(tr, n, call, at, version, got)
    ensures Midway(tr, n + 1, call, at, version, got)
  {
    CommittedInRun(config, tr, steps, n, n + 1, call.pair, version);
    var id := VersionId(call.pair, version);
    SeenLater(tr, n, n + 1, call.pair, call.pin, at, Some(BundleOf(call.pair, version, tr[n].fits[id])));
    forall j | 0 <= j < |got| ensures got[j] == Read(tr[n + 1].store, Blob(call.pair, version, LOAD_ORDER[j])) {
      assert Read(tr[n].store, Blob(call.pair, version, LOAD_ORDER[j]))
          == Payload(call.pair, version, tr[n].fits[id], LOAD_ORDER[j]);
      assert Read(tr[n + 1].store, Blob(call.pair, version, LOAD_ORDER[j]))
          == Payload(call.pair, version, tr[n].fits[id], LOAD_ORDER[j]);
    }
  }

  // ---- each read ----

  /** Finding the version: it is complete at this instant, so from here on the
      call can only end with this version's bundle. */
  lemma ResolveKept(config: Config, tr: seq<State>, n: nat, call: Call, at: real)
    requires n < |tr| && StoreInv(tr[n]) && at <= tr[n].clock
    ensures ReaderInv(config, tr, n, AfterRead(tr[n].store, Resolving(call, at)))
  {
    var s := tr[n];
    match call.pin {
      case Some(version) =>
        if Blob(call.pair, version, Manifest) !in s.store {
          ExplainedNow(config, tr, n, call, at, Raised(NoSuchVersion));
        } else {
          VersionFound(tr, n, call, at, version);
        }
      case None =>
        if PointerVersion(Read(s.store, Latest(call.pair))).None? {
          SeenNow(tr, n, call.pair, None, at, None);
        } else {
          VersionFound(tr, n, call, at, PointerVersion(Read(s.store, Latest(call.pair))).value);
        }
    }
  }

  lemma VersionFound(tr: seq<State>, n: nat, call: Call, at: real, version: string)
    requires n < |tr| && StoreInv(tr[n]) && at <= tr[n].clock
    requires match call.pin
             case Some(v) => v == version && Blob(call.pair, version, Manifest) in tr[n].store
             case None => PointerVersion(Read(tr[n].store, Latest(call.pair))) == Some(version)
    ensures Midway(tr, n, call, at, version, [])
  {
    assert Committed(tr[n], call.pair, version);
    var fit := tr[n].fits[VersionId(call.pair, version)];
    CompleteLoads(tr[n].store, call.pair, version, fit);
    SeenNow(tr, n, call.pair, call.pin, at, Some(BundleOf(call.pair, version, fit)));
  }

  /** Reading one more object of the version. */
  lemma LoadingKept(
    config: Config, tr: seq<State>, n: nat, call: Call, at: real, version: string, got: seq<Option<Json>>)
    requires n < |tr| && Midway(tr, n, call, at, version, got)
    ensures ReaderInv(config, tr, n, AfterRead(tr[n].store, Loading(call, at, version, got)))
  {
    hide Seen, BundleOf, ValidFit;
    var fit := tr[n].fits[VersionId(call.pair, version)];
    var now := got + [Read(tr[n].store, Blob(call.pair, version, LOAD_ORDER[|got|]))];
    forall j | 0 <= j < |now| ensures now[j] == Payload(call.pair, version, fit, LOAD_ORDER[j]) {
      assert Read(tr[n].store, Blob(call.pair, version, LOAD_ORDER[j]))
          == Payload(call.pair, version, fit, LOAD_ORDER[j]);
    }
    forall j | 0 <= j < |now| ensures now[j] == Read(tr[n].store, Blob(call.pair, version, LOAD_ORDER[j])) {
      assert Read(tr[n].store, Blob(call.pair, version, LOAD_ORDER[j]))
          == Payload(call.pair, version, fit, LOAD_ORDER[j]);
    }
    if |now| == 4 {
      AssembleRestoresFit(call.pair, version, fit);
    }
  }

  /** The reader that moves keeps its invariant. */
  lemma MovedReaderKept(config: Config, tr: seq<State>, n: nat, id: nat, victim: CacheKey, s': State)
    requires n < |tr| && config.Valid() && StoreInv(tr[n]) && LoadInv(config, tr, n)
    requires ReaderNext(config, tr[n], id, victim, s')
    ensures id in s'.readers && ReaderInv(config, tr, n, s'.readers[id])
  {
    var r := tr[n].readers[id];
    assert ReaderInv(config, tr, n, r);
    match r {
      case Started(call, at) =>
        var slot := call.Slot();
        if config.ttl > 0.0 && Hit(tr[n].cache, slot, at) {
          var entry := tr[n].cache[slot];
          assert Seen(tr, n, slot.pair, SlotPin(slot), entry.expiry - config.ttl, entry.bundle);
          SeenExplains(config, tr, n, call, SlotPin(slot), entry.expiry - config.ttl, at, entry.bundle);
        }
      case Resolving(call, at) => ResolveKept(config, tr, n, call, at);
      case Loading(call, at, version, got) => LoadingKept(config, tr, n, call, at, version, got);
      case Loaded(call, at, bundle) => SeenExplains(config, tr, n, call, call.pin, at, at, bundle);
      case Done(_, _, _) =>
    }
  }

  // ---- the run ----

  /** The step is a reader's insert into an enabled cache. */
  predicate IsInsert(config: Config, s: State, step: Step) {
    step.ReaderStep? && step.id in s.readers && s.readers[step.id].Loaded? && config.ttl > 0.0
  }

  /** An inserted entry expires one TTL after the call's clock reading, and the
      call saw its bundle no earlier than that reading. */
  lemma CacheInsertKept(config: Config, tr: seq<State>, n: nat, step: Step)
    requires config.Valid() && n + 1 < |tr| && CacheInv(config, tr, n) && ReadersInv(config, tr, n)
    requires IsInsert(config, tr[n], step) && InsertMove(config, tr[n], step, tr[n + 1])
    ensures CacheInv(config, tr, n + 1)
  {
    hide Seen, Inserted, ClosestToExpiry, ReaderInv, LoadUncached;
    var before, after := tr[n].cache, tr[n + 1].cache;
    var r := tr[n].readers[step.id];
    var slot, entry := r.call.Slot(), Entry(r.at + config.ttl, r.bundle);
    InsertNonEmpty(config, before, step.victim);
    InsertKeepsSize(config, before, slot, entry, step.victim);
    LoadedSaw(config, tr, n, r);
    SeenLater(tr, n, n + 1, r.call.pair, r.call.pin, r.at, r.bundle);
    forall k | k in after
      ensures Seen(tr, n + 1, k.pair, SlotPin(k), after[k].expiry - config.ttl, after[k].bundle)
    {
      InsertedAt(config, before, slot, entry, step.victim, k);
      if k != slot {
        SeenLater(tr, n, n + 1, k.pair, SlotPin(k), before[k].expiry - config.ttl, before[k].bundle);
      }
    }
  }

  lemma LoadedSaw(config: Config, tr: seq<State>, n: nat, r: Reader)
    requires n < |tr| && ReaderInv(config, tr, n, r) && r.Loaded?
    ensures SlotPin(r.call.Slot()) == r.call.pin && Seen(tr, n, r.call.pair, r.call.pin, r.at, r.bundle)
  {}

  lemma InsertedAt(config: Config, cache: Cache, slot: CacheKey, entry: Entry, victim: CacheKey, k: CacheKey)
    requires k in Inserted(config, cache, slot, entry, victim)
    ensures Inserted(config, cache, slot, entry, victim)[k] == if k == slot then entry else if k in cache
            then cache[k] else entry
    ensures k == slot || k in cache
  {}

  lemma CacheShrinkKept(config: Config, tr: seq<State>, n: nat)
    requires n + 1 < |tr| && CacheInv(config, tr, n)
    requires forall k | k in tr[n + 1].cache :: k in tr[n].cache && tr[n + 1].cache[k] == tr[n].cache[k]
    requires |tr[n + 1].cache| <= |tr[n].cache|
    ensures CacheInv(config, tr, n + 1)
  {
    var after := tr[n + 1].cache;
    forall k | k in after
      ensures Seen(tr, n + 1, k.pair, SlotPin(k), after[k].expiry - config.ttl, after[k].bundle)
    {
      SeenLater(tr, n, n + 1, k.pair, SlotPin(k), after[k].expiry - config.ttl, after[k].bundle);
    }
  }

  predicate InsertMove(config: Config, s: State, step: Step, s': State)
    requires IsInsert(config, s, step)
  {
    var r := s.readers[step.id];
    && (MustEvict(config, s.cache) ==> ClosestToExpiry(s.cache, step.victim))
    && s'.cache == Inserted(config, s.cache, r.call.Slot(), Entry(r.at + config.ttl, r.bundle), step.victim)
  }

  /** All a step can do to the cache: one insert, or drop entries. */
  predicate CacheMove(config: Config, s: State, step: Step, s': State) {
    if IsInsert(config, s, step) then InsertMove(config, s, step, s')
    else
      && (forall k | k in s'.cache :: k in s.cache && s'.cache[k] == s.cache[k])
      && |s'.cache| <= |s.cache|
  }

  lemma CacheMoves(config: Config, s: State, step: Step, s': State)
    requires Next(config, s, step, s')
    ensures CacheMove(config, s, step, s')
  {
    if !IsInsert(config, s, step) {
      CacheShrinks(config, s, step, s');
    }
  }

  lemma CacheKept(config: Config, tr: seq<State>, n: nat, step: Step)
    requires config.Valid() && n + 1 < |tr| && CacheInv(config, tr, n) && ReadersInv(config, tr, n)
    requires CacheMove(config, tr[n], step, tr[n + 1])
    ensures CacheInv(config, tr, n + 1)
  {
    if IsInsert(config, tr[n], step) {
      CacheInsertKept(config, tr, n, step);
    } else {
      CacheShrinkKept(config, tr, n);
    }
  }

  lemma InsertNonEmpty(config: Config, cache: Cache, victim: CacheKey)
    requires config.Valid() && |cache| <= config.maxEntries
    requires MustEvict(config, cache) ==> ClosestToExpiry(cache, victim)
    ensures MustEvict(config, cache) ==> victim in cache
  {}

  lemma CacheShrinks(config: Config, s: State, step: Step, s': State)
    requires Next(config, s, step, s')
    requires !IsInsert(config, s, step)
    ensures forall k | k in s'.cache :: k in s.cache && s'.cache[k] == s.cache[k]
    ensures |s'.cache| <= |s.cache|
  {
    assert s'.cache.Keys <= s.cache.Keys;
    SubsetSize(s'.cache.Keys, s.cache.Keys);
  }

  lemma SubsetSize<T>(a: set<T>, b: set<T>)
    requires a <= b
    ensures |a| <= |b|
  {
    assert b == a + (b - a);
    assert |b| == |a| + |b - a|;
  }

  lemma ReadersKept(config: Config, tr: seq<State>, steps: seq<Step>, n: nat)
    requires Run(config, tr, steps) && n < |steps| && LoadInv(config, tr, n)
    ensures ReadersInv(config, tr, n + 1)
  {
    var s, s' := tr[n], tr[n + 1];
    assert StoreInv(s) && Next(config, s, steps[n], s') by { StepInRun(config, tr, steps, n); }
    forall id | id in s'.readers ensures ReaderInv(config, tr, n + 1, s'.readers[id]) {
      if steps[n].ReaderStep? && steps[n].id == id {
        MovedReaderKept(config, tr, n, id, steps[n].victim, s');
        UnchangedReaderKept(config, tr, steps, n, s'.readers[id]);
      } else if id in s.readers {
        OtherReaders(config, s, steps[n], s', id);
        UnchangedReaderKept(config, tr, steps, n, s.readers[id]);
      } else {
        OtherReaders(config, s, steps[n], s', id);
      }
    }
  }

  lemma OtherReaders(config: Config, s: State, step: Step, s': State, id: nat)
    requires Next(config, s, step, s') && id in s'.readers && !(step.ReaderStep? && step.id == id)
    ensures id in s.readers ==> s'.readers[id] == s.readers[id]
    ensures id !in s.readers ==> s'.readers[id].Started? && s'.readers[id].at == s.clock <= s'.clock
  {}

  lemma {:induction false} LoadInvInRun(config: Config, tr: seq<State>, steps: seq<Step>, n: nat)
    requires Run(config, tr, steps) && n < |tr|
    ensures LoadInv(config, tr, n)
  {
    hide Run, LoadInv;
    if n == 0 {
      LoadInvAtStart(config, tr, steps);
    } else {
      assert n - 1 < |steps| by { RunLength(config, tr, steps); }
      LoadInvInRun(config, tr, steps, n - 1);
      LoadInvKept(config, tr, steps, n - 1);
    }
  }

  lemma RunLength(config: Config, tr: seq<State>, steps: seq<Step>)
    requires Run(config, tr, steps)
    ensures |tr| == |steps| + 1
  {
    hide Next, Init;
  }

  lemma LoadInvAtStart(config: Config, tr: seq<State>, steps: seq<Step>)
    requires Run(config, tr, steps)
    ensures LoadInv(config, tr, 0)
  {
    hide Next, Seen, ReaderInv;
  }

  lemma LoadInvKept(config: Config, tr: seq<State>, steps: seq<Step>, n: nat)
    requires Run(config, tr, steps) && n < |steps| && LoadInv(config, tr, n)
    ensures LoadInv(config, tr, n + 1)
  {
    hide Next, CacheInv, ReadersInv, CacheMove, StoreInv, Init;
    StepInRun(config, tr, steps, n);
    CacheMoves(config, tr[n], steps[n], tr[n + 1]);
    CacheKept(config, tr, n, steps[n]);
    ReadersKept(config, tr, steps, n);
  }

  // ---- main results ----

  /** Whatever the interleaving, a finished call returned what one
      uninterrupted load would have returned at some instant of the run later
      than `at - ttl`, where `at` is the clock the call read on entry. */
  lemma LoadsAreRecentSnapshots(config: Config, tr: seq<State>, steps: seq<Step>, n: nat, id: nat)
    requires Run(config, tr, steps) && n < |tr|
    requires id in tr[n].readers && tr[n].readers[id].Done?
    ensures var r := tr[n].readers[id];
            CallExplained(config, tr, n, r.call, r.at, r.outcome)
  {
    LoadInvInRun(config, tr, steps, n);
    assert ReaderInv(config, tr, n, tr[n].readers[id]);
  }

  lemma CacheNeverOverflows(config: Config, tr: seq<State>, steps: seq<Step>, n: nat)
    requires Run(config, tr, steps) && n < |tr|
    ensures |tr[n].cache| <= config.maxEntries
  {
    LoadInvInRun(config, tr, steps, n);
  }

  /** Every bundle any call returns is exactly one trainer's fit, whichever
      steps came between its reads; a pinned call gets the pinned version. And
      no call ever finds the store inconsistent or an artifact unreadable. */
  lemma LoadsReturnOneFit(config: Config, tr: seq<State>, steps: seq<Step>, n: nat, id: nat)
    requires Run(config, tr, steps) && n < |tr|
    requires id in tr[n].readers && tr[n].readers[id].Done?
    ensures var r := tr[n].readers[id];
            match r.outcome
            case Served(Some(b)) =>
              && b.pair == r.call.pair
              && VersionId(b.pair, b.version) in tr[n].fits
              && b == BundleOf(b.pair, b.version, tr[n].fits[VersionId(b.pair, b.version)])
              && (r.call.pin.Some? && r.call.pin != Some("") ==> r.call.pin == Some(b.version))
            case Served(None) => r.call.pin.None? || r.call.pin == Some("")
            case Raised(error) => error == NoSuchVersion || error == ClassMismatch
  {
    LoadsAreRecentSnapshots(config, tr, steps, n, id);
    var r := tr[n].readers[id];
    if Explained(config, tr, n, r.call.pair, r.call.pin, r.call.numClasses, r.at, r.outcome) {
      var k :| 0 <= k <= n && Recent(config, tr[k].clock, r.at)
               && r.outcome == Checked(LoadUncached(tr[k].store, r.call.pair, r.call.pin), r.call.numClasses);
      SnapshotIsOneFit(config, tr, steps, k, n, r.call.pair, r.call.pin);
    } else {
      var k :| 0 <= k <= n && Recent(config, tr[k].clock, r.at)
               && r.outcome == Checked(LoadUncached(tr[k].store, r.call.pair, None), r.call.numClasses);
      SnapshotIsOneFit(config, tr, steps, k, n, r.call.pair, None);
    }
  }

  /** The class check over whole runs. A bundle is served only to a call that named
      no class count or the one its fit has. A mismatch is raised only for a named
      count, and only because at one recent instant the load would have found a fit
      of another count. */
  lemma ServedForItsClasses(config: Config, tr: seq<State>, steps: seq<Step>, n: nat, id: nat)
    requires Run(config, tr, steps) && n < |tr|
    requires id in tr[n].readers && tr[n].readers[id].Done?
    ensures var r := tr[n].readers[id];
            var asked := r.call.numClasses;
            match r.outcome
            case Served(Some(b)) =>
              && VersionId(b.pair, b.version) in tr[n].fits
              && (asked.None? || asked.value == match tr[n].fits[VersionId(b.pair, b.version)]
                                                case ClassFit(_, calibrators, _, _) => |calibrators|
                                                case NumericFit(_, _, count, _) => count)
            case Raised(ClassMismatch) => asked.Some? && FoundOtherCount(config, tr, n, r.call, r.at)
            case _ => true
  {
    LoadsAreRecentSnapshots(config, tr, steps, n, id);
    var r := tr[n].readers[id];
    var pin := if Explained(config, tr, n, r.call.pair, r.call.pin, r.call.numClasses, r.at, r.outcome)
        then r.call.pin else None;
    var k :| 0 <= k <= n && Recent(config, tr[k].clock, r.at)
             && r.outcome == Checked(LoadUncached(tr[k].store, r.call.pair, pin), r.call.numClasses);
    SnapshotIsOneFit(config, tr, steps, k, n, r.call.pair, pin);
    var loaded := LoadUncached(tr[k].store, r.call.pair, pin);
    if loaded.Served? && loaded.bundle.Some? {
      var b := loaded.bundle.value;
      CheckedFit(b.pair, b.version, tr[n].fits[VersionId(b.pair, b.version)], r.call.numClasses);
      assert r.outcome == Raised(ClassMismatch) ==> FindsOtherCount(tr[k].store, tr[n].fits, r.call, pin);
    }
  }

  /** An uninterrupted load finds a fit whose class count is not the one asked for. */
  ghost predicate FindsOtherCount(store: Store, fits: map<VersionId, Fit>, call: Call, pin: Option<string>) {
    match LoadUncached(store, call.pair, pin)
    case Served(Some(b)) =>
      && VersionId(b.pair, b.version) in fits
      && call.numClasses != Some(match fits[VersionId(b.pair, b.version)]
                                 case ClassFit(_, calibrators, _, _) => |calibrators|
                                 case NumericFit(_, _, count, _) => count)
    case _ => false
  }

  ghost predicate FoundOtherCount(config: Config, tr: seq<State>, n: nat, call: Call, at: real)
    requires n < |tr|
  {
    exists k, pin ::
      && 0 <= k <= n && Recent(config, tr[k].clock, at)
      && (pin == call.pin || (call.pin == Some("") && pin == None))
      && FindsOtherCount(tr[k].store, tr[n].fits, call, pin)
  }

  lemma SnapshotIsOneFit(
    config: Config, tr: seq<State>, steps: seq<Step>, k: nat, n: nat, pair: Pair, pin: Option<string>)
    requires Run(config, tr, steps) && k <= n < |tr|
    ensures match LoadUncached(tr[k].store, pair, pin)
            case Served(Some(b)) =>
              && b.pair == pair && (pin.Some? ==> pin == Some(b.version))
              && VersionId(pair, b.version) in tr[n].fits
              && b == BundleOf(pair, b.version, tr[n].fits[VersionId(pair, b.version)])
            case Served(None) => pin.None?
            case Raised(error) => error == NoSuchVersion && pin.Some?
  {
    StoreInvInRun(config, tr, steps, k);
    var s := tr[k];
    if pin.Some? && Blob(pair, pin.value, Manifest) in s.store {
      VersionIsOneFit(config, tr, steps, k, n, pair, pin.value);
    } else if pin.None? && PointerVersion(Read(s.store, Latest(pair))).Some? {
      VersionIsOneFit(config, tr, steps, k, n, pair, PointerVersion(Read(s.store, Latest(pair))).value);
    }
  }

  lemma VersionIsOneFit(config: Config, tr: seq<State>, steps: seq<Step>, k: nat, n: nat, pair: Pair, version: string)
    requires Run(config, tr, steps) && k <= n < |tr|
    requires StoreInv(tr[k]) && Blob(pair, version, Manifest) in tr[k].store
    ensures VersionId(pair, version) in tr[n].fits
    ensures LoadVersion(tr[k].store, pair, version)
            == Served(Some(BundleOf(pair, version, tr[n].fits[VersionId(pair, version)])))
  {
    assert Committed(tr[k], pair, version);
    CompleteLoads(tr[k].store, pair, version, tr[k].fits[VersionId(pair, version)]);
    CommittedInRun(config, tr, steps, k, n, pair, version);
  }
}
