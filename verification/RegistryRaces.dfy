/** The race behind `RegistryClear` happens: a run in which a load takes its pointer
    read, a newer fit is published, and the clear that follows does not help. */
module RegistryRaces {
  import opened Options
  import opened Json
  import opened RegistryStore
  import opened RegistryProtocol
  import opened RegistryClear

  /** A run with its steps. */
  datatype History = History(tr: seq<State>, steps: seq<Step>) {
    ghost predicate Runs(config: Config) { Run(config, tr, steps) }

    function Now(): State
      requires tr != []
    {
      tr[|tr| - 1]
    }
  }

  lemma Go(config: Config, h: History, step: Step, s': State) returns (h': History)
    requires h.Runs(config) && Next(config, h.Now(), step, s')
    ensures h'.Runs(config) && h'.Now() == s'
  {
    Extend(config, h.tr, h.steps, step, s');
    h' := History(h.tr + [s'], h.steps + [step]);
  }

  /** The trainer's next write. */
  lemma Write(config: Config, h: History, id: nat, t: Trainer) returns (h': History)
    requires h.Runs(config) && id in h.Now().trainers && h.Now().trainers[id] == t && t.pc < 4
    ensures h'.Runs(config)
    ensures var s, w := h.Now(), Writes(t.pair, t.version, t.fit)[t.pc];
            h'.Now() == s.(store := s.store[w.0 := w.1], trainers := s.trainers[id := t.(pc := t.pc + 1)])
  {
    var s, w := h.Now(), Writes(t.pair, t.version, t.fit)[t.pc];
    h' := Go(config, h, TrainerStep(id),
        s.(store := s.store[w.0 := w.1], trainers := s.trainers[id := t.(pc := t.pc + 1)]));
  }

  /** A training run from its start to its clear, alone. */
  lemma Train(config: Config, h: History, id: nat, pair: Pair, version: string, fit: Fit) returns (h': History)
    requires h.Runs(config) && id !in h.Now().trainers && VersionId(pair, version) !in h.Now().fits
    requires version != "" && ValidFit(fit)
    ensures h'.Runs(config)
    ensures var s, s' := h.Now(), h'.Now();
            && s'.readers == s.readers && s'.clock == s.clock && s'.trainers == s.trainers
            && s'.fits == s.fits[VersionId(pair, version) := fit]
            && s'.cache == Cleared(s.cache, Some(pair.scenario), Some(pair.decisionType))
            && PointerVersion(Read(s'.store, Latest(pair))) == Some(version)
  {
    hide ValidFit, Writes, PointerVersion, PointerJson, Cleared;
    var s := h.Now();
    var t := Trainer(pair, version, fit, 0);
    h' := Go(config, h, StartTrainer(id, pair, version, fit),
             s.(trainers := s.trainers[id := t], fits := s.fits[VersionId(pair, version) := fit]));
    h' := Write(config, h', id, t);
    h' := Write(config, h', id, t.(pc := 1));
    h' := Write(config, h', id, t.(pc := 2));
    h' := Write(config, h', id, t.(pc := 3));
    PointerIsLast(pair, version, fit);
    var written := h'.Now();
    h' := Go(config, h', TrainerStep(id),
             written.(cache := Cleared(s.cache, Some(pair.scenario), Some(pair.decisionType)),
                      trainers := written.trainers - {id}));
    assert written.trainers - {id} == s.trainers;
  }

  lemma PointerIsLast(pair: Pair, version: string, fit: Fit)
    requires version != ""
    ensures var w := Writes(pair, version, fit)[3]; w.0 == Latest(pair) && PointerVersion(Some(w.1)) == Some(version)
  {
    PointerNames(version, fit.info.createdAt);
  }

  /** An unpinned call up to and including its pointer read. */
  lemma StartLoad(config: Config, h: History, id: nat, pair: Pair, version: string) returns (h': History)
    requires h.Runs(config) && id !in h.Now().readers && SlotOf(pair) !in h.Now().cache
    requires PointerVersion(Read(h.Now().store, Latest(pair))) == Some(version)
    ensures h'.Runs(config)
    ensures var s := h.Now();
            h'.Now() == s.(readers := s.readers[id := Loading(Call(pair, None, None), s.clock, version, [])])
  {
    hide PointerVersion;
    var s, call := h.Now(), Call(pair, None, None);
    h' := Go(config, h, StartCall(id, call), s.(readers := s.readers[id := Started(call, s.clock)]));
    h' := Go(config, h', ReaderStep(id, SlotOf(pair)), s.(readers := s.readers[id := Resolving(call, s.clock)]));
    h' := Go(config, h', ReaderStep(id, SlotOf(pair)),
        s.(readers := s.readers[id := Loading(call, s.clock, version, [])]));
  }

  /** Whatever is fitted for whatever pair, under every positive TTL there is a run
      in which the slot has just been cleared and a stale load is in flight, so that
      the clear is not effective. */
  lemma ClearCanFail(
    config: Config, pair: Pair, first: string, second: string, older: Fit, newer: Fit) returns (h: History)
    requires config.Valid() && config.ttl > 0.0
    requires first != "" && second != "" && first != second && ValidFit(older) && ValidFit(newer)
    ensures h.Runs(config) && SlotOf(pair) !in h.Now().cache
    ensures StaleInFlight(config, h.Now(), pair) && !AlwaysFresh(config, h.tr, h.steps, pair)
  {
    var start := State(0.0, map[], map[], map[], map[], map[]);
    h := History([start], []);
    h := Train(config, h, 0, pair, first, older);
    h := StartLoad(config, h, 0, pair, first);
    h := Train(config, h, 0, pair, second, newer);
    assert SlotOf(pair) !in h.Now().cache;
    assert Stale(config, h.Now(), pair, h.Now().readers[0]);
    ClearIsEffectiveIff(config, h.tr, h.steps, pair);
  }
}
