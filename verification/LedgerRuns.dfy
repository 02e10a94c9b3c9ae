/** Over whole runs the ingest ledger is an index of the ingest log and of the stored events. */
module LedgerRuns {
  import opened Wrappers
  import opened Text
  import opened Database
  import opened Namespaces
  import opened RawEvents
  import opened Ingest
  import opened Service
  import opened Retention
  import opened KeyStability

  // ---- the log of a run -------------------------------------------------------------

  /** The answer of an ingest step. */
  function AnswerOf(cfg: Config, s: Store, step: Step): Option<IngestAnswer> {
    match step
    case IngestOne(args, now) =>
      (match IngestSpec(cfg, s, args, now).0
       case Done(a) => Some(a)
       case _ => None)
    case _ => None
  }

  /** What a step adds to the log. */
  function LogOf(cfg: Config, s: Store, step: Step): seq<LogItem> {
    match step
    case IngestOne(args, now) =>
      (match CrawlSource(s.sources, args.sourceKey)
       case Done(source) =>
         if AnswerOf(cfg, s, step).Some? then [Ingested(EntryFor(cfg, s, UnitOf(cfg, source, args), args, now))] else []
       case _ => [])
    case ResetIngest(key, confirm) =>
      (match CrawlSource(s.sources, key)
       case Done(source) => if confirm then [WasReset(source)] else []
       case _ => [])
    case _ => []
  }

  function LogOfRun(cfg: Config, s: Store, steps: seq<Step>): seq<LogItem> {
    if steps == [] then []
    else
      var before := steps[..|steps| - 1];
      LogOfRun(cfg, s, before) + LogOf(cfg, Run(cfg, s, before), steps[|steps| - 1])
  }

  lemma AcceptedIngest(cfg: Config, s: Store, args: IngestArgs, now: nat)
    requires AnswerOf(cfg, s, IngestOne(args, now)).Some?
    ensures CrawlSource(s.sources, args.sourceKey).Done?
    ensures var u := UnitOf(cfg, CrawlSource(s.sources, args.sourceKey).value, args);
            && IngestSpec(cfg, s, args, now) == UnitSpec(cfg, s, u, args, now) && UnitSpec(cfg, s, u, args, now).0.Done?
            && LogOf(cfg, s, IngestOne(args, now)) == [Ingested(EntryFor(cfg, s, u, args, now))]
  {
  }

  lemma UnacceptedUnit(cfg: Config, s: Store, u: Unit, args: IngestArgs, now: nat)
    requires !UnitSpec(cfg, s, u, args, now).0.Done?
    ensures UnitSpec(cfg, s, u, args, now).1 == s
  {
  }

  lemma UnacceptedIngest(cfg: Config, s: Store, args: IngestArgs, now: nat)
    requires AnswerOf(cfg, s, IngestOne(args, now)).None?
    ensures IngestSpec(cfg, s, args, now).1 == s && LogOf(cfg, s, IngestOne(args, now)) == []
  {
    var source := CrawlSource(s.sources, args.sourceKey);
    if source.Done? && Strip(args.content) != "" { UnacceptedUnit(cfg, s, UnitOf(cfg, source.value, args), args, now); }
  }

  lemma IngestStepLedger(cfg: Config, s: Store, args: IngestArgs, now: nat, log: seq<LogItem>)
    requires LedgerIs(s.ledger, log)
    ensures LedgerIs(IngestSpec(cfg, s, args, now).1.ledger, log + LogOf(cfg, s, IngestOne(args, now)))
  {
    if AnswerOf(cfg, s, IngestOne(args, now)).Some? {
      AcceptedIngest(cfg, s, args, now);
      IngestKeepsLedger(cfg, s, UnitOf(cfg, CrawlSource(s.sources, args.sourceKey).value, args), args, now, log);
    } else {
      UnacceptedIngest(cfg, s, args, now);
      assert log + [] == log;
    }
  }

  lemma ResetStepLedger(cfg: Config, s: Store, key: string, confirm: bool, log: seq<LogItem>)
    requires LedgerIs(s.ledger, log)
    ensures LedgerIs(Committed(ResetSpec(s, key, confirm), s).ledger, log + LogOf(cfg, s, ResetIngest(key, confirm)))
  {
    var source := CrawlSource(s.sources, key);
    if source.Done? && confirm { ResetKeepsLedger(s, source.value, log); } else { assert log + [] == log; }
  }

  /** The step leaves the ledger and the numbering of events alone. */
  ghost predicate Quiet(s: Store, u: Store) {
    u.ledger == s.ledger && u.nextEvent == s.nextEvent
  }

  lemma JobIsQuiet(cfg: Config, s: Store, step: Step)
    requires step.Maintain? || step.DropIdle? || step.PutSource?
    ensures Quiet(s, Next(cfg, s, step))
  {
  }

  lemma ReadIsQuiet(cfg: Config, s: Store, step: Step)
    requires step.ReadEvent?
    ensures Quiet(s, Next(cfg, s, step))
  {
    ReadTouches(cfg, s, step.id, step.offset, step.maxChars, step.txnNow);
  }

  lemma NamespaceIsQuiet(cfg: Config, s: Store, step: Step)
    requires step.PutNamespace?
    ensures Quiet(s, Next(cfg, s, step))
  {
    UpsertOnlyNamespaces(s, step.nsArgs);
  }

  lemma WriteIsQuiet(cfg: Config, s: Store, step: Step)
    requires StoreOk(s) && (step.Write? || step.WriteMany?)
    ensures Quiet(s, Next(cfg, s, step))
  {
    WriteStepKeeps(cfg, s, step);
  }

  lemma OtherStepIsQuiet(cfg: Config, s: Store, step: Step)
    requires StoreOk(s) && !step.IngestOne? && !step.ResetIngest? && !step.LogEvent?
    ensures Quiet(s, Next(cfg, s, step))
  {
    match step
    case ReadEvent(_, _, _, _) => ReadIsQuiet(cfg, s, step);
    case PutNamespace(_) => NamespaceIsQuiet(cfg, s, step);
    case Write(_, _, _) => WriteIsQuiet(cfg, s, step);
    case WriteMany(_, _) => WriteIsQuiet(cfg, s, step);
    case _ => JobIsQuiet(cfg, s, step);
  }

  lemma LogKeepsLedger(cfg: Config, s: Store, args: LogArgs, now: nat)
    ensures Committed(LogSpec(cfg, s, args, now), s).ledger == s.ledger
  {
  }

  lemma OtherStepKeepsLedger(cfg: Config, s: Store, step: Step)
    requires StoreOk(s) && !step.IngestOne? && !step.ResetIngest?
    ensures Next(cfg, s, step).ledger == s.ledger
  {
    if step.LogEvent? { LogKeepsLedger(cfg, s, step.logArgs, step.now); } else { OtherStepIsQuiet(cfg, s, step); }
  }

  lemma StepLedger(cfg: Config, s: Store, step: Step, log: seq<LogItem>)
    requires StoreOk(s) && LedgerIs(s.ledger, log)
    ensures LedgerIs(Next(cfg, s, step).ledger, log + LogOf(cfg, s, step))
  {
    match step
    case IngestOne(args, now) => IngestStepLedger(cfg, s, args, now, log);
    case ResetIngest(key, confirm) => ResetStepLedger(cfg, s, key, confirm, log);
    case _ =>
      OtherStepKeepsLedger(cfg, s, step);
      assert log + [] == log;
  }

  /** After any run each ledger row is what a plain reading of that unit's ingest log since the last
      reset gives, and there is a row exactly for the units in that log. */
  lemma {:induction false} LedgerIsTheLog(cfg: Config, s: Store, steps: seq<Step>, log: seq<LogItem>)
    requires StoreOk(s) && LedgerIs(s.ledger, log)
    ensures LedgerIs(Run(cfg, s, steps).ledger, log + LogOfRun(cfg, s, steps))
  {
    if steps == [] {
      assert log + [] == log;
    } else {
      var before, last := steps[..|steps| - 1], steps[|steps| - 1];
      LedgerIsTheLog(cfg, s, before, log);
      RunKeepsStore(cfg, s, before);
      var u := Run(cfg, s, before);
      StepLedger(cfg, u, last, log + LogOfRun(cfg, s, before));
      assert log + LogOfRun(cfg, s, steps) == (log + LogOfRun(cfg, s, before)) + LogOf(cfg, u, last);
    }
  }

  lemma LedgerFromNothing(cfg: Config, steps: seq<Step>)
    ensures LedgerIs(Run(cfg, NOTHING_YET, steps).ledger, LogOfRun(cfg, NOTHING_YET, steps))
  {
    LedgerIsTheLog(cfg, NOTHING_YET, steps, []);
    assert [] + LogOfRun(cfg, NOTHING_YET, steps) == LogOfRun(cfg, NOTHING_YET, steps);
  }

  // ---- how many events are written --------------------------------------------------

  /** An ingest that is created or changed writes one event, a logged event is one, and nothing else
      writes any. */
  function EventsOf(cfg: Config, s: Store, step: Step): nat {
    match step
    case LogEvent(args, now) => if LogSpec(cfg, s, args, now).Done? then 1 else 0
    case IngestOne(_, _) => if AnswerOf(cfg, s, step).Some? && !AnswerOf(cfg, s, step).value.Same? then 1 else 0
    case _ => 0
  }

  function EventsOfRun(cfg: Config, s: Store, steps: seq<Step>): nat {
    if steps == [] then 0
    else
      var before := steps[..|steps| - 1];
      EventsOfRun(cfg, s, before) + EventsOf(cfg, Run(cfg, s, before), steps[|steps| - 1])
  }

  /** The new rows have the next ids. */
  ghost predicate NewRows(s: Store, u: Store, count: nat) {
    && u.nextEvent == s.nextEvent + count
    && forall id :: s.nextEvent <= id < u.nextEvent ==> id in u.events
  }

  lemma UnitNewRows(cfg: Config, s: Store, unit: Unit, args: IngestArgs, now: nat)
    ensures var (r, u) := UnitSpec(cfg, s, unit, args, now); NewRows(s, u, if r.Done? && !r.value.Same? then 1 else 0)
  {
  }

  lemma NoAnswerNoChange(cfg: Config, s: Store, args: IngestArgs, now: nat)
    requires !IngestSpec(cfg, s, args, now).0.Done?
    ensures IngestSpec(cfg, s, args, now).1 == s
  {
    UnacceptedIngest(cfg, s, args, now);
  }

  lemma IngestNewRows(cfg: Config, s: Store, args: IngestArgs, now: nat)
    ensures NewRows(s, IngestSpec(cfg, s, args, now).1, EventsOf(cfg, s, IngestOne(args, now)))
  {
    if IngestSpec(cfg, s, args, now).0.Done? {
      AcceptedIngest(cfg, s, args, now);
      UnitNewRows(cfg, s, UnitOf(cfg, CrawlSource(s.sources, args.sourceKey).value, args), args, now);
    } else {
      NoAnswerNoChange(cfg, s, args, now);
    }
  }

  lemma LogNewRows(cfg: Config, s: Store, args: LogArgs, now: nat)
    ensures NewRows(s, Committed(LogSpec(cfg, s, args, now), s), if LogSpec(cfg, s, args, now).Done? then 1 else 0)
  {
  }

  lemma ResetNewRows(s: Store, key: string, confirm: bool)
    ensures NewRows(s, Committed(ResetSpec(s, key, confirm), s), 0)
  {
  }

  lemma StepNewRows(cfg: Config, s: Store, step: Step)
    requires StoreOk(s)
    ensures NewRows(s, Next(cfg, s, step), EventsOf(cfg, s, step))
  {
    match step
    case IngestOne(args, now) => IngestNewRows(cfg, s, args, now);
    case LogEvent(args, now) => LogNewRows(cfg, s, args, now);
    case ResetIngest(key, confirm) => ResetNewRows(s, key, confirm);
    case _ => OtherStepIsQuiet(cfg, s, step);
  }

  /** A run writes exactly one event per created or changed ingest and per logged event. */
  lemma {:induction false} EventsAreCounted(cfg: Config, s: Store, steps: seq<Step>)
    requires StoreOk(s)
    ensures Run(cfg, s, steps).nextEvent == s.nextEvent + EventsOfRun(cfg, s, steps)
  {
    if steps != [] {
      var before := steps[..|steps| - 1];
      EventsAreCounted(cfg, s, before);
      RunKeepsStore(cfg, s, before);
      StepNewRows(cfg, Run(cfg, s, before), steps[|steps| - 1]);
    }
  }

  ghost predicate NoDrops(cfg: Config, steps: seq<Step>) {
    forall i :: 0 <= i < |steps| ==> DropOf(cfg, steps[i]).None?
  }

  /** Between drop runs the stored events are the old ones and those. */
  lemma {:induction false} EventsAreConserved(cfg: Config, s: Store, steps: seq<Step>, id: EventId)
    requires StoreOk(s) && NoDrops(cfg, steps)
    ensures id in Run(cfg, s, steps).events <==> id in s.events || s.nextEvent <= id < s.nextEvent + EventsOfRun(cfg, s, steps)
  {
    EventsAreCounted(cfg, s, steps);
    if steps != [] {
      var before, last := steps[..|steps| - 1], steps[|steps| - 1];
      assert NoDrops(cfg, before);
      EventsAreConserved(cfg, s, before, id);
      EventsAreCounted(cfg, s, before);
      RunKeepsStore(cfg, s, before);
      RunKeepsStore(cfg, s, steps);
      var u := Run(cfg, s, before);
      OnlyDropsRemove(cfg, u, last);
      StepNewRows(cfg, u, last);
      KeptIds(u, Next(cfg, u, last), EventsOf(cfg, u, last), id);
    }
  }

  lemma KeptIds(u: Store, v: Store, count: nat, id: EventId)
    requires EventsOk(u) && EventsOk(v) && EventsKept(u, v) && NewRows(u, v, count)
    ensures id in v.events <==> id in u.events || u.nextEvent <= id < v.nextEvent
  {
  }

  // ---- the ledger points into the events --------------------------------------------

  /** The event is the payload that the row's hashes are of. */
  ghost predicate IsPayloadOf(cfg: Config, e: RawEvent, id: UnitId, row: UnitRow) {
    && e.sourceKey == id.source && e.sourceHash == row.sourceHash
    && exists text :: cfg.digest(text) == row.contentHash && e.content == cfg.redactSecrets(text)
  }

  ghost predicate PointsAt(cfg: Config, s: Store, id: UnitId, row: UnitRow) {
    && row.lastEvent < s.nextEvent
    && (row.lastEvent in s.events ==> IsPayloadOf(cfg, s.events[row.lastEvent], id, row))
  }

  ghost predicate IndexOk(cfg: Config, s: Store) {
    forall id :: id in s.ledger ==> PointsAt(cfg, s, id, s.ledger[id])
  }

  lemma StillPointsAt(cfg: Config, s: Store, u: Store, id: UnitId, row: UnitRow)
    requires PointsAt(cfg, s, id, row) && s.nextEvent <= u.nextEvent && SameRow(s.events, u.events, row.lastEvent)
    ensures PointsAt(cfg, u, id, row)
  {
  }

  /** Rows that stay the same but for `lastSeen` keep pointing at their events. */
  lemma OldRowsPoint(cfg: Config, s: Store, step: Step)
    requires StoreOk(s) && IndexOk(cfg, s)
    ensures forall id :: id in s.ledger ==> PointsAt(cfg, Next(cfg, s, step), id, s.ledger[id])
  {
    var u := Next(cfg, s, step);
    StepKeepsStore(cfg, s, step);
    forall id | id in s.ledger ensures PointsAt(cfg, u, id, s.ledger[id]) {
      StepKeepsRow(cfg, s, step, s.ledger[id].lastEvent);
      StillPointsAt(cfg, s, u, id, s.ledger[id]);
    }
  }

  lemma HashIsNotCut(cfg: Config, source: string, args: IngestArgs)
    requires Fits(UnitOf(cfg, source, args).sourceHash, HASH_WIDTH)
    ensures Cut(UnitOf(cfg, source, args).sourceHash, HASH_WIDTH) == UnitOf(cfg, source, args).sourceHash
  {
    if CleanHash(args.sourceHash) != "" {
      StripIsTrimmed(args.sourceHash.value);
      LowerTrimmed(Strip(args.sourceHash.value));
      TrimmedIsNotCut(CleanHash(args.sourceHash), HASH_WIDTH);
    }
  }

  lemma NewEventIsPayload(cfg: Config, source: string, args: IngestArgs, row: UnitRow, now: nat, id: UnitId)
    requires var unit := UnitOf(cfg, source, args);
             && EventFits(cfg, NewEventOf(unit, args)) && id.source == source
             && row.contentHash == unit.contentHash && row.sourceHash == unit.sourceHash
    ensures IsPayloadOf(cfg, StoredEvent(cfg, NewEventOf(UnitOf(cfg, source, args), args), now), id, row)
  {
    HashIsNotCut(cfg, source, args);
    assert cfg.digest(UnitOf(cfg, source, args).canonical) == row.contentHash;
  }

  /** An ingest touches its own row only. */
  lemma OtherUnitsStay(cfg: Config, s: Store, unit: Unit, args: IngestArgs, now: nat, id: UnitId)
    requires id != RowId(s.ledger, unit)
    ensures var u := UnitSpec(cfg, s, unit, args, now).1;
            (id in u.ledger <==> id in s.ledger) && (id in s.ledger ==> u.ledger[id] == s.ledger[id])
  {
  }

  /** The row was written with the next event. */
  ghost predicate IsNewRow(cfg: Config, s: Store, u: Store, unit: Unit, args: IngestArgs, now: nat, row: UnitRow) {
    && row.contentHash == unit.contentHash && row.sourceHash == unit.sourceHash
    && row.lastEvent == s.nextEvent < u.nextEvent && EventFits(cfg, NewEventOf(unit, args))
    && s.nextEvent in u.events && u.events[s.nextEvent] == StoredEvent(cfg, NewEventOf(unit, args), now)
  }

  /** After an ingest the unit's own row is the old one, maybe seen again, or one written with the
      next event. */
  lemma OwnRow(cfg: Config, s: Store, unit: Unit, args: IngestArgs, now: nat)
    ensures var u, id := UnitSpec(cfg, s, unit, args, now).1, RowId(s.ledger, unit);
            id in u.ledger ==>
              var row := u.ledger[id];
              || (id in s.ledger && row == s.ledger[id].(lastSeen := row.lastSeen))
              || IsNewRow(cfg, s, u, unit, args, now, row)
  {
  }

  lemma UnitRowPoints(cfg: Config, s: Store, source: string, args: IngestArgs, now: nat, id: UnitId)
    requires var u := UnitSpec(cfg, s, UnitOf(cfg, source, args), args, now).1;
             id in u.ledger && forall i :: i in s.ledger ==> PointsAt(cfg, u, i, s.ledger[i])
    ensures var u := UnitSpec(cfg, s, UnitOf(cfg, source, args), args, now).1; PointsAt(cfg, u, id, u.ledger[id])
  {
    var unit := UnitOf(cfg, source, args);
    var u := UnitSpec(cfg, s, unit, args, now).1;
    if id != RowId(s.ledger, unit) {
      OtherUnitsStay(cfg, s, unit, args, now, id);
    } else {
      OwnRow(cfg, s, unit, args, now);
      if IsNewRow(cfg, s, u, unit, args, now, u.ledger[id]) { NewEventIsPayload(cfg, source, args, u.ledger[id], now, id); }
    }
  }

  lemma UnitIndex(cfg: Config, s: Store, source: string, args: IngestArgs, now: nat)
    requires var u := UnitSpec(cfg, s, UnitOf(cfg, source, args), args, now).1;
             forall i :: i in s.ledger ==> PointsAt(cfg, u, i, s.ledger[i])
    ensures IndexOk(cfg, UnitSpec(cfg, s, UnitOf(cfg, source, args), args, now).1)
  {
    var u := UnitSpec(cfg, s, UnitOf(cfg, source, args), args, now).1;
    forall id | id in u.ledger ensures PointsAt(cfg, u, id, u.ledger[id]) { UnitRowPoints(cfg, s, source, args, now, id); }
  }

  /** An ingest step either does nothing or runs its unit. */
  lemma IngestIsUnit(cfg: Config, s: Store, args: IngestArgs, now: nat)
    ensures IngestSpec(cfg, s, args, now).1 == s
            || (CrawlSource(s.sources, args.sourceKey).Done?
                && IngestSpec(cfg, s, args, now)
                   == UnitSpec(cfg, s, UnitOf(cfg, CrawlSource(s.sources, args.sourceKey).value, args), args, now))
  {
  }

  lemma IngestIndex(cfg: Config, s: Store, args: IngestArgs, now: nat)
    requires StoreOk(s) && IndexOk(cfg, s)
    ensures IndexOk(cfg, IngestSpec(cfg, s, args, now).1)
  {
    OldRowsPoint(cfg, s, IngestOne(args, now));
    IngestIsUnit(cfg, s, args, now);
    if IngestSpec(cfg, s, args, now).1 != s {
      UnitIndex(cfg, s, CrawlSource(s.sources, args.sourceKey).value, args, now);
    }
  }

  lemma StepIndex(cfg: Config, s: Store, step: Step)
    requires StoreOk(s) && IndexOk(cfg, s)
    ensures IndexOk(cfg, Next(cfg, s, step))
  {
    OldRowsPoint(cfg, s, step);
    if step.IngestOne? {
      IngestIndex(cfg, s, step.args, step.now);
    } else if !step.ResetIngest? {
      OtherStepKeepsLedger(cfg, s, step);
    }
  }

  /** In every reachable state each ledger row names an event that was given out, and as long as
      that event is stored it is the payload of the row's hashes, from the row's source. */
  lemma {:induction false} LedgerPointsAtPayloads(cfg: Config, s: Store, steps: seq<Step>)
    requires StoreOk(s) && IndexOk(cfg, s)
    ensures IndexOk(cfg, Run(cfg, s, steps))
  {
    if steps != [] {
      var before := steps[..|steps| - 1];
      LedgerPointsAtPayloads(cfg, s, before);
      RunKeepsStore(cfg, s, before);
      StepIndex(cfg, Run(cfg, s, before), steps[|steps| - 1]);
    }
  }

  lemma UnitStoredIff(cfg: Config, s: Store, u: Unit, args: IngestArgs, now: nat)
    requires UnitSpec(cfg, s, u, args, now).0.Done?
    ensures var (r, after) := UnitSpec(cfg, s, u, args, now);
            r.value.event in after.events <==> !IsSame(s.ledger, u) || s.ledger[u.id].lastEvent in s.events
  {
  }

  /** An accepted ingest names an event that is stored exactly when the unit was new or changed, or
      its last event outlived the drop runs: re-reading an unchanged unit brings no payload back. */
  lemma IngestedPayloadIsStoredIff(cfg: Config, s: Store, args: IngestArgs, now: nat)
    requires AnswerOf(cfg, s, IngestOne(args, now)).Some?
    ensures CrawlSource(s.sources, args.sourceKey).Done?
    ensures var u := UnitOf(cfg, CrawlSource(s.sources, args.sourceKey).value, args);
            AnswerOf(cfg, s, IngestOne(args, now)).value.event in IngestSpec(cfg, s, args, now).1.events
            <==> !IsSame(s.ledger, u) || s.ledger[u.id].lastEvent in s.events
  {
    AcceptedIngest(cfg, s, args, now);
    UnitStoredIff(cfg, s, UnitOf(cfg, CrawlSource(s.sources, args.sourceKey).value, args), args, now);
  }

  lemma SameKeepsEvents(cfg: Config, s: Store, args: IngestArgs, now: nat)
    requires AnswerOf(cfg, s, IngestOne(args, now)).Some? && AnswerOf(cfg, s, IngestOne(args, now)).value.Same?
    ensures IngestSpec(cfg, s, args, now).1.events == s.events
  {
    AcceptedIngest(cfg, s, args, now);
  }

  /** The event that an unchanged ingest reports is stored exactly when no drop run, since any earlier
      time at which it was stored, found its last touch before the window. */
  lemma UnchangedPayloadIsStoredIff(cfg: Config, s: Store, steps: seq<Step>, args: IngestArgs, now: nat, id: EventId)
    requires StoreOk(s) && id in s.events
    requires AnswerOf(cfg, Run(cfg, s, steps), IngestOne(args, now)) == Some(Same(id))
    ensures id in IngestSpec(cfg, Run(cfg, s, steps), args, now).1.events <==> NeverTaken(cfg, s, steps, id)
  {
    StoredIffNeverTaken(cfg, s, steps, id);
    SameKeepsEvents(cfg, Run(cfg, s, steps), args, now);
  }

  /** A row keyed by its content keeps that content hash for good. */
  lemma HashRowsKeepTheirHash(cfg: Config, s: Store, steps: seq<Step>, id: UnitId)
    requires StoreOk(s) && id in Run(cfg, s, steps).ledger && "hash:" <= id.item
    ensures id.item == "hash:" + Run(cfg, s, steps).ledger[id].contentHash
  {
    RunKeepsStore(cfg, s, steps);
  }
}
