/** How long raw events live over whole runs, and what a reader gets afterwards. */
module Retention {
  import opened Wrappers
  import opened Calendar
  import opened Namespaces
  import opened Database
  import opened RawEvents
  import opened Partitions
  import opened Facts
  import opened FactWrites
  import opened BatchLaws
  import opened Ingest
  import opened Service

  // ---- one step ---------------------------------------------------------------------

  /** The time and window of the drop run that a step contains. */
  function DropOf(cfg: Config, step: Step): Option<(nat, int)> {
    match step
    case Maintain(_, dropAt) => Some((dropAt, cfg.retentionMonths))
    case DropIdle(months, dropAt) => Some((dropAt, WindowOf(cfg, months)))
    case _ => None
  }

  /** No drop run of the step reaches month `m`. */
  predicate Spares(cfg: Config, step: Step, m: nat) {
    var d := DropOf(cfg, step);
    d.Some? ==> MonthOf(d.value.0) <= m + d.value.1
  }

  ghost predicate AllSpare(cfg: Config, steps: seq<Step>, m: nat) {
    forall i :: 0 <= i < |steps| ==> Spares(cfg, steps[i], m)
  }

  /** The event is still there with its payload, touched no earlier than before. */
  ghost predicate Lives(before: Events, after: Events, id: EventId)
    requires id in before
  {
    && id in after
    && after[id] == before[id].(touchedAt := after[id].touchedAt)
    && before[id].touchedAt <= after[id].touchedAt
  }

  /** No event goes, no event but new ones comes, and the partitions stay. */
  ghost predicate EventsKept(s: Store, u: Store) {
    && u.partitions == s.partitions
    && forall id :: id < s.nextEvent ==>
         && (id in s.events <==> id in u.events)
         && (id in s.events ==> Lives(s.events, u.events, id))
  }

  lemma TouchesKeepEvents(s: Store, u: Store)
    requires Touched(s.events, u.events, s.partitions) && u.partitions == s.partitions
    ensures EventsKept(s, u)
  {
  }

  lemma AddKeepsEvents(cfg: Config, s: Store, e: NewEvent, now: nat)
    ensures AddSpec(cfg, s, e, now).Done? ==> EventsKept(s, AddSpec(cfg, s, e, now).value)
  {
  }

  lemma UnitKeepsEvents(cfg: Config, s: Store, u: Unit, args: IngestArgs, now: nat)
    ensures EventsKept(s, UnitSpec(cfg, s, u, args, now).1)
  {
    AddKeepsEvents(cfg, s, NewEventOf(u, args), now);
  }

  lemma IngestKeepsEvents(cfg: Config, s: Store, args: IngestArgs, now: nat)
    ensures EventsKept(s, IngestSpec(cfg, s, args, now).1)
  {
    var source := CrawlSource(s.sources, args.sourceKey);
    if source.Done? { UnitKeepsEvents(cfg, s, UnitOf(cfg, source.value, args), args, now); }
  }

  lemma LogKeepsEvents(cfg: Config, s: Store, args: LogArgs, now: nat)
    ensures EventsKept(s, Committed(LogSpec(cfg, s, args, now), s))
  {
  }

  lemma WriteKeepsEvents(cfg: Config, s: Store, step: Step)
    requires StoreOk(s) && (step.Write? || step.WriteMany?)
    ensures EventsKept(s, Next(cfg, s, step))
  {
    WriteStepKeeps(cfg, s, step);
    TouchesKeepEvents(s, Next(cfg, s, step));
  }

  lemma ReadKeepsEvents(cfg: Config, s: Store, step: Step)
    requires step.ReadEvent?
    ensures EventsKept(s, Next(cfg, s, step))
  {
    ReadTouches(cfg, s, step.id, step.offset, step.maxChars, step.txnNow);
    TouchesKeepEvents(s, Next(cfg, s, step));
  }

  lemma AdminKeepsEvents(cfg: Config, s: Store, step: Step)
    requires step.PutNamespace? || step.PutSource? || step.ResetIngest?
    ensures EventsKept(s, Next(cfg, s, step))
  {
    if step.PutNamespace? { UpsertOnlyNamespaces(s, step.nsArgs); }
  }

  /** Only a drop run takes events or partitions away. */
  lemma OnlyDropsRemove(cfg: Config, s: Store, step: Step)
    requires StoreOk(s) && DropOf(cfg, step).None?
    ensures EventsKept(s, Next(cfg, s, step))
  {
    match step
    case LogEvent(args, now) => LogKeepsEvents(cfg, s, args, now);
    case IngestOne(args, now) => IngestKeepsEvents(cfg, s, args, now);
    case ReadEvent(_, _, _, _) => ReadKeepsEvents(cfg, s, step);
    case PutNamespace(_) => AdminKeepsEvents(cfg, s, step);
    case PutSource(_, _) => AdminKeepsEvents(cfg, s, step);
    case ResetIngest(_, _) => AdminKeepsEvents(cfg, s, step);
    case _ => WriteKeepsEvents(cfg, s, step);
  }

  /** What a drop run at `at` with a window may do: it spares everything in reach of the window. */
  ghost predicate DroppedBy(s: Store, u: Store, at: nat, window: int) {
    && (forall m :: m in s.partitions && MonthOf(at) <= m + window ==> m in u.partitions)
    && (forall id :: id in u.events ==> id in s.events && u.events[id] == s.events[id])
    && (forall id :: id in s.events && MonthOf(at) <= MonthOf(s.events[id].touchedAt) + window ==> id in u.events)
  }

  lemma DropDrops(cfg: Config, s: Store, months: Option<int>, at: nat)
    requires EventsOk(s)
    ensures DroppedBy(s, Committed(DropSpec(cfg, s, months, at), s), at, WindowOf(cfg, months))
  {
    var u := Committed(DropSpec(cfg, s, months, at), s);
    forall id | id in s.events && MonthOf(at) <= MonthOf(s.events[id].touchedAt) + WindowOf(cfg, months) ensures id in u.events {
      if DropSpec(cfg, s, months, at).Done? { DropIsExact(cfg, s, months, at, id); }
    }
  }

  lemma MaintainDrops(cfg: Config, s: Store, ensureAt: nat, dropAt: nat)
    requires EventsOk(s)
    ensures DroppedBy(s, Committed(MaintainSpec(cfg, s, ensureAt, dropAt), s), dropAt, cfg.retentionMonths)
  {
    if EnsureSpec(s, ensureAt).Done? { DropDrops(cfg, EnsureSpec(s, ensureAt).value, None, dropAt); }
  }

  lemma DropStepDrops(cfg: Config, s: Store, step: Step)
    requires StoreOk(s) && DropOf(cfg, step).Some?
    ensures DroppedBy(s, Next(cfg, s, step), DropOf(cfg, step).value.0, DropOf(cfg, step).value.1)
  {
    match step
    case Maintain(ensureAt, dropAt) => MaintainDrops(cfg, s, ensureAt, dropAt);
    case DropIdle(months, dropAt) => DropDrops(cfg, s, months, dropAt);
  }

  lemma StepSpares(cfg: Config, s: Store, step: Step, id: EventId)
    requires StoreOk(s) && id in s.events
    requires Spares(cfg, step, MonthOf(s.events[id].touchedAt))
    ensures Lives(s.events, Next(cfg, s, step).events, id)
  {
    if DropOf(cfg, step).Some? { DropStepDrops(cfg, s, step); } else { OnlyDropsRemove(cfg, s, step); }
  }

  /** An event lives through a run whose drops all spare the month of its last touch. */
  lemma {:induction false} RunSpares(cfg: Config, s: Store, steps: seq<Step>, id: EventId, m: nat)
    requires StoreOk(s) && id in s.events
    requires m <= MonthOf(s.events[id].touchedAt) && AllSpare(cfg, steps, m)
    ensures Lives(s.events, Run(cfg, s, steps).events, id)
  {
    if steps != [] {
      var before, last := steps[..|steps| - 1], steps[|steps| - 1];
      var u := Run(cfg, s, before);
      assert AllSpare(cfg, before, m);
      RunSpares(cfg, s, before, id, m);
      RunKeepsStore(cfg, s, before);
      MonthMonotone(s.events[id].touchedAt, u.events[id].touchedAt);
      assert Spares(cfg, last, m);
      StepSpares(cfg, u, last, id);
    }
  }

  // ---- payloads ---------------------------------------------------------------------

  /** If the event is there afterwards it was there before, with the same payload. */
  ghost predicate SameRow(before: Events, after: Events, id: EventId) {
    id in after ==> id in before && after[id] == before[id].(touchedAt := after[id].touchedAt)
  }

  lemma StepKeepsRow(cfg: Config, s: Store, step: Step, id: EventId)
    requires StoreOk(s) && id < s.nextEvent
    ensures SameRow(s.events, Next(cfg, s, step).events, id)
  {
    if DropOf(cfg, step).Some? { DropStepDrops(cfg, s, step); } else { OnlyDropsRemove(cfg, s, step); }
  }

  /** Only drop runs remove an event, a removed event never comes back, and nothing alters a
      payload. */
  lemma {:induction false} PayloadNeverChanges(cfg: Config, s: Store, steps: seq<Step>, id: EventId)
    requires StoreOk(s) && id < s.nextEvent
    ensures SameRow(s.events, Run(cfg, s, steps).events, id)
  {
    if steps != [] {
      var before := steps[..|steps| - 1];
      PayloadNeverChanges(cfg, s, before, id);
      RunKeepsStore(cfg, s, before);
      StepKeepsRow(cfg, Run(cfg, s, before), steps[|steps| - 1], id);
    }
  }

  // ---- what takes an event away -----------------------------------------------------

  /** The step is a drop run that completes. */
  predicate Drops(cfg: Config, s: Store, step: Step) {
    match step
    case Maintain(ensureAt, dropAt) => MaintainSpec(cfg, s, ensureAt, dropAt).Done?
    case DropIdle(months, dropAt) => DropSpec(cfg, s, months, dropAt).Done?
    case _ => false
  }

  /** It removes the event: the last touch is before the window. */
  predicate Takes(cfg: Config, s: Store, step: Step, id: EventId) {
    && Drops(cfg, s, step) && id in s.events
    && MonthOf(DropOf(cfg, step).value.0) > MonthOf(s.events[id].touchedAt) + DropOf(cfg, step).value.1
  }

  /** No drop run of the steps removes it, each taken with the last touch at its time. */
  ghost predicate NeverTaken(cfg: Config, s: Store, steps: seq<Step>, id: EventId) {
    forall i :: 0 <= i < |steps| ==> !Takes(cfg, Run(cfg, s, steps[..i]), steps[i], id)
  }

  lemma MaintainTakesIff(cfg: Config, s: Store, ensureAt: nat, dropAt: nat, id: EventId)
    requires EventsOk(s) && id in s.events
    ensures id in Committed(MaintainSpec(cfg, s, ensureAt, dropAt), s).events <==> !Takes(cfg, s, Maintain(ensureAt, dropAt), id)
  {
    if MaintainSpec(cfg, s, ensureAt, dropAt).Done? { DropIsExact(cfg, EnsureSpec(s, ensureAt).value, None, dropAt, id); }
  }

  lemma DropTakesIff(cfg: Config, s: Store, months: Option<int>, dropAt: nat, id: EventId)
    requires EventsOk(s) && id in s.events
    ensures id in Committed(DropSpec(cfg, s, months, dropAt), s).events <==> !Takes(cfg, s, DropIdle(months, dropAt), id)
  {
    if DropSpec(cfg, s, months, dropAt).Done? { DropIsExact(cfg, s, months, dropAt, id); }
  }

  lemma StepTakesIff(cfg: Config, s: Store, step: Step, id: EventId)
    requires StoreOk(s) && id in s.events
    ensures id in Next(cfg, s, step).events <==> !Takes(cfg, s, step, id)
  {
    if DropOf(cfg, step).Some? { DropStepTakesIff(cfg, s, step, id); } else { OnlyDropsRemove(cfg, s, step); }
  }

  lemma DropStepTakesIff(cfg: Config, s: Store, step: Step, id: EventId)
    requires EventsOk(s) && id in s.events && DropOf(cfg, step).Some?
    ensures id in Next(cfg, s, step).events <==> !Takes(cfg, s, step, id)
  {
    match step
    case Maintain(ensureAt, dropAt) => MaintainTakesIff(cfg, s, ensureAt, dropAt, id);
    case DropIdle(months, dropAt) => DropTakesIff(cfg, s, months, dropAt, id);
  }

  lemma NeverTakenMore(cfg: Config, s: Store, before: seq<Step>, last: Step, id: EventId)
    ensures NeverTaken(cfg, s, before + [last], id) <==> NeverTaken(cfg, s, before, id) && !Takes(cfg, Run(cfg, s, before), last, id)
  {
    var steps := before + [last];
    assert steps[..|before|] == before;
    forall i | 0 <= i < |before| ensures steps[..i] == before[..i] {}
    if NeverTaken(cfg, s, steps, id) {
      assert !Takes(cfg, Run(cfg, s, steps[..|before|]), steps[|before|], id);
      forall i | 0 <= i < |before| ensures !Takes(cfg, Run(cfg, s, before[..i]), before[i], id) {
        assert !Takes(cfg, Run(cfg, s, steps[..i]), steps[i], id);
      }
    }
  }

  /** After any run an event is stored exactly when no drop run found its last touch before the
      window. */
  lemma {:induction false} StoredIffNeverTaken(cfg: Config, s: Store, steps: seq<Step>, id: EventId)
    requires StoreOk(s) && id in s.events
    ensures id in Run(cfg, s, steps).events <==> NeverTaken(cfg, s, steps, id)
  {
    if steps != [] {
      var before, last := steps[..|steps| - 1], steps[|steps| - 1];
      assert steps == before + [last];
      StoredIffNeverTaken(cfg, s, before, id);
      RunKeepsStore(cfg, s, before);
      var u := Run(cfg, s, before);
      if id in u.events { StepTakesIff(cfg, u, last, id); } else { StepKeepsRow(cfg, u, last, id); }
      NeverTakenMore(cfg, s, before, last, id);
    }
  }

  // ---- reads and citations renew ----------------------------------------------------

  /** The last touch is at most `touchMinDays` before `r`. */
  predicate FreshAt(cfg: Config, events: Events, id: EventId, r: nat) {
    id in events && events[id].touchedAt + cfg.touchMinDays * DAY >= r
  }

  /** The first page of the event was read at `r`. */
  predicate ReadAt(cfg: Config, s: Store, step: Step, id: EventId, r: nat) {
    && step.ReadEvent? && step.id == id && step.txnNow == r && StartOf(step.offset) == 0
    && id in s.events && ReadSpec(cfg, s, id, step.offset, step.maxChars, [], r).0.Done?
  }

  /** The touch of the event is the old one, or `r` when it was due. */
  predicate Renewed(cfg: Config, before: Events, after: Events, id: EventId, r: nat)
    requires id in before
  {
    id in after && after[id].touchedAt == if TouchDue(cfg, before[id], r) then r else before[id].touchedAt
  }

  /** Renewed, or not touched. */
  predicate MaybeRenewed(cfg: Config, before: Events, after: Events, id: EventId, r: nat)
    requires id in before
  {
    id in after && (after[id].touchedAt == before[id].touchedAt || Renewed(cfg, before, after, id, r))
  }

  /** Within one transaction the first due touch is the only one. */
  lemma RenewedOnce(cfg: Config, a: Events, b: Events, c: Events, id: EventId, r: nat)
    requires id in a && MaybeRenewed(cfg, a, b, id, r) && MaybeRenewed(cfg, b, c, id, r)
    ensures MaybeRenewed(cfg, a, c, id, r)
    ensures Renewed(cfg, a, b, id, r) || Renewed(cfg, b, c, id, r) ==> Renewed(cfg, a, c, id, r)
  {
  }

  lemma RenewedIsFresh(cfg: Config, before: Events, after: Events, id: EventId, r: nat)
    requires id in before && Renewed(cfg, before, after, id, r)
    ensures FreshAt(cfg, after, id, r)
  {
  }

  lemma ReadRenews(cfg: Config, s: Store, step: Step, id: EventId, r: nat)
    requires ReadAt(cfg, s, step, id, r)
    ensures Renewed(cfg, s.events, Next(cfg, s, step).events, id, r)
  {
  }

  /** A revision that cites the event was written by one of the first `n` jobs. */
  ghost predicate CitedByJobs(cfg: Config, s: Store, jobs: seq<Job>, n: nat, id: EventId, r: nat)
    requires n <= |jobs|
  {
    && BatchSpec(cfg, s, jobs, n, r).Done?
    && exists i :: 0 <= i < n && RenewsAt(cfg, s, jobs, i, id, r)
  }

  ghost predicate JobCites(cfg: Config, job: Job, id: EventId) {
    job.Job? && exists k :: 0 <= k < |job.p.refs| && EventOf(cfg, job.p.refs[k]) == Some(id)
  }

  predicate WroteAt(cfg: Config, s: Store, jobs: seq<Job>, i: nat, r: nat)
    requires i < |jobs|
  {
    && BatchSpec(cfg, s, jobs, i, r).Done?
    && JobSpec(cfg, BatchSpec(cfg, s, jobs, i, r).value.1, jobs[i], r).Done?
    && IsWritten(JobSpec(cfg, BatchSpec(cfg, s, jobs, i, r).value.1, jobs[i], r).value.0)
  }

  lemma TouchRenews(cfg: Config, events: Events, partitions: set<nat>, e: EventId, id: EventId, r: nat)
    requires id in events && TouchSpec(cfg, events, partitions, e, r).Done?
    ensures MaybeRenewed(cfg, events, TouchSpec(cfg, events, partitions, e, r).value, id, r)
    ensures e == id ==> Renewed(cfg, events, TouchSpec(cfg, events, partitions, e, r).value, id, r)
  {
  }

  lemma {:induction false} TouchFirstRenews(cfg: Config, events: Events, partitions: set<nat>, refs: seq<SourceRef>, n: nat,
                                            id: EventId, r: nat)
    requires n <= |refs| && id in events && TouchFirst(cfg, events, partitions, refs, n, r).Done?
    ensures MaybeRenewed(cfg, events, TouchFirst(cfg, events, partitions, refs, n, r).value, id, r)
    ensures (exists k :: 0 <= k < n && EventOf(cfg, refs[k]) == Some(id)) ==>
              Renewed(cfg, events, TouchFirst(cfg, events, partitions, refs, n, r).value, id, r)
  {
    if n > 0 {
      TouchFirstRenews(cfg, events, partitions, refs, n - 1, id, r);
      var before := TouchFirst(cfg, events, partitions, refs, n - 1, r).value;
      var e := EventOf(cfg, refs[n - 1]);
      if e.Some? {
        TouchRenews(cfg, before, partitions, e.value, id, r);
        RenewedOnce(cfg, events, before, TouchFirst(cfg, events, partitions, refs, n, r).value, id, r);
      }
    }
  }

  /** A write that is answered as written has made its touches. */
  lemma WrittenEvents(cfg: Config, s: Store, p: Prepared, now: nat, r: nat)
    ensures IsWrite(WritePrepared(cfg, s, p, now, r).0) ==>
              TouchFirst(cfg, s.events, s.partitions, p.refs, |p.refs|, r) == Done(WritePrepared(cfg, s, p, now, r).1.events)
  {
  }

  lemma JobRenews(cfg: Config, s: Store, job: Job, id: EventId, r: nat)
    requires JobSpec(cfg, s, job, r).Done? && id in s.events
    ensures MaybeRenewed(cfg, s.events, JobSpec(cfg, s, job, r).value.1.events, id, r)
    ensures IsWritten(JobSpec(cfg, s, job, r).value.0) && JobCites(cfg, job, id) ==>
              Renewed(cfg, s.events, JobSpec(cfg, s, job, r).value.1.events, id, r)
  {
    if job.Job? {
      var p := job.p;
      PreparedEvents(cfg, s, p, job.now, r);
      WrittenEvents(cfg, s, p, job.now, r);
      if TouchFirst(cfg, s.events, s.partitions, p.refs, |p.refs|, r).Done? {
        TouchFirstRenews(cfg, s.events, s.partitions, p.refs, |p.refs|, id, r);
      }
    }
  }

  lemma BatchStep(cfg: Config, s: Store, jobs: seq<Job>, n: nat, r: nat)
    requires 0 < n <= |jobs| && BatchSpec(cfg, s, jobs, n, r).Done?
    ensures BatchSpec(cfg, s, jobs, n - 1, r).Done?
    ensures var last := JobSpec(cfg, BatchSpec(cfg, s, jobs, n - 1, r).value.1, jobs[n - 1], r);
            last.Done? && BatchSpec(cfg, s, jobs, n, r).value.1 == last.value.1
  {
  }

  /** The job at position `i` was written and cites the event. */
  ghost predicate RenewsAt(cfg: Config, s: Store, jobs: seq<Job>, i: nat, id: EventId, r: nat)
    requires i < |jobs|
  {
    JobCites(cfg, jobs[i], id) && WroteAt(cfg, s, jobs, i, r)
  }

  lemma OneJobMore(cfg: Config, s: Store, jobs: seq<Job>, n: nat, id: EventId, r: nat)
    requires 0 < n <= |jobs| && id in s.events && BatchSpec(cfg, s, jobs, n, r).Done? && BatchSpec(cfg, s, jobs, n - 1, r).Done?
    requires MaybeRenewed(cfg, s.events, BatchSpec(cfg, s, jobs, n - 1, r).value.1.events, id, r)
    ensures MaybeRenewed(cfg, s.events, BatchSpec(cfg, s, jobs, n, r).value.1.events, id, r)
    ensures Renewed(cfg, s.events, BatchSpec(cfg, s, jobs, n - 1, r).value.1.events, id, r) || RenewsAt(cfg, s, jobs, n - 1, id, r) ==>
              Renewed(cfg, s.events, BatchSpec(cfg, s, jobs, n, r).value.1.events, id, r)
  {
    BatchStep(cfg, s, jobs, n, r);
    var u := BatchSpec(cfg, s, jobs, n - 1, r).value.1;
    JobRenews(cfg, u, jobs[n - 1], id, r);
    RenewedOnce(cfg, s.events, u.events, BatchSpec(cfg, s, jobs, n, r).value.1.events, id, r);
  }

  lemma {:induction false} BatchMayRenew(cfg: Config, s: Store, jobs: seq<Job>, n: nat, id: EventId, r: nat)
    requires n <= |jobs| && id in s.events && BatchSpec(cfg, s, jobs, n, r).Done?
    ensures MaybeRenewed(cfg, s.events, BatchSpec(cfg, s, jobs, n, r).value.1.events, id, r)
  {
    if n > 0 {
      BatchStep(cfg, s, jobs, n, r);
      BatchMayRenew(cfg, s, jobs, n - 1, id, r);
      OneJobMore(cfg, s, jobs, n, id, r);
    }
  }

  lemma {:induction false} BatchRenews(cfg: Config, s: Store, jobs: seq<Job>, i: nat, n: nat, id: EventId, r: nat)
    requires i < n <= |jobs| && id in s.events && BatchSpec(cfg, s, jobs, n, r).Done? && RenewsAt(cfg, s, jobs, i, id, r)
    ensures Renewed(cfg, s.events, BatchSpec(cfg, s, jobs, n, r).value.1.events, id, r)
  {
    BatchStep(cfg, s, jobs, n, r);
    BatchMayRenew(cfg, s, jobs, n - 1, id, r);
    if i < n - 1 { BatchRenews(cfg, s, jobs, i, n - 1, id, r); }
    OneJobMore(cfg, s, jobs, n, id, r);
  }

  /** The jobs of a write step. */
  function StepJobs(cfg: Config, s: Store, step: Step): seq<Job> {
    match step
    case Write(req, now, _) => [JobOf(cfg, s.namespaces, Call(req, now))]
    case WriteMany(items, _) => if 1 <= |items| <= MAX_BATCH then Jobs(cfg, s.namespaces, items) else []
    case _ => []
  }

  /** A committed revision of the step cites the event. */
  ghost predicate CitedAtStep(cfg: Config, s: Store, step: Step, id: EventId, r: nat) {
    && (step.Write? || step.WriteMany?) && step.txnNow == r
    && id in s.events && CitedByJobs(cfg, s, StepJobs(cfg, s, step), |StepJobs(cfg, s, step)|, id, r)
  }

  lemma CitationRenews(cfg: Config, s: Store, step: Step, id: EventId, r: nat)
    requires CitedAtStep(cfg, s, step, id, r)
    ensures Renewed(cfg, s.events, Next(cfg, s, step).events, id, r)
  {
    var jobs := StepJobs(cfg, s, step);
    var i :| 0 <= i < |jobs| && RenewsAt(cfg, s, jobs, i, id, r);
    BatchRenews(cfg, s, jobs, i, |jobs|, id, r);
    if step.Write? {
      WriteIsBatch(cfg, s, step.req, step.now, r);
      assert Next(cfg, s, step) == BatchStore(cfg, s, jobs, r);
    }
  }

  // ---- the retention guarantee ------------------------------------------------------

  /** A fresh event lives through every run that spares the month of its freshness. */
  lemma FreshLives(cfg: Config, u: Store, id: EventId, r: nat, steps: seq<Step>)
    requires StoreOk(u) && FreshAt(cfg, u.events, id, r) && r >= cfg.touchMinDays * DAY
    requires AllSpare(cfg, steps, MonthOf(r - cfg.touchMinDays * DAY))
    ensures Lives(u.events, Run(cfg, u, steps).events, id)
  {
    MonthMonotone(r - cfg.touchMinDays * DAY, u.events[id].touchedAt);
    RunSpares(cfg, u, steps, id, MonthOf(r - cfg.touchMinDays * DAY));
  }

  /** A first-page read or a committed citation. */
  ghost predicate UsedAt(cfg: Config, s: Store, step: Step, id: EventId, r: nat) {
    ReadAt(cfg, s, step, id, r) || CitedAtStep(cfg, s, step, id, r)
  }

  lemma UseRenews(cfg: Config, s: Store, step: Step, id: EventId, r: nat)
    requires UsedAt(cfg, s, step, id, r)
    ensures Renewed(cfg, s.events, Next(cfg, s, step).events, id, r)
    ensures FreshAt(cfg, Next(cfg, s, step).events, id, r)
  {
    if ReadAt(cfg, s, step, id, r) { ReadRenews(cfg, s, step, id, r); } else { CitationRenews(cfg, s, step, id, r); }
    RenewedIsFresh(cfg, s.events, Next(cfg, s, step).events, id, r);
  }

  /** An event that was read at its first page, or cited in a committed revision, at time `r`
      outlives every run whose drops happen no later than the window after the month of `r` less
      the touch throttle. */
  lemma RetentionGuarantee(cfg: Config, s: Store, step: Step, id: EventId, r: nat, steps: seq<Step>)
    requires StoreOk(s) && r >= cfg.touchMinDays * DAY
    requires UsedAt(cfg, s, step, id, r)
    requires AllSpare(cfg, steps, MonthOf(r - cfg.touchMinDays * DAY))
    ensures var u := Next(cfg, s, step);
            id in u.events && Lives(u.events, Run(cfg, u, steps).events, id)
  {
    UseRenews(cfg, s, step, id, r);
    StepKeepsStore(cfg, s, step);
    FreshLives(cfg, Next(cfg, s, step), id, r, steps);
  }

  lemma SparesLater(cfg: Config, steps: seq<Step>, m: nat, n: nat)
    requires AllSpare(cfg, steps, m) && m <= n
    ensures AllSpare(cfg, steps, n)
  {
    forall i | 0 <= i < |steps| ensures Spares(cfg, steps[i], n) {
      assert Spares(cfg, steps[i], m);
    }
  }

  lemma TwoMonthsSpare(cfg: Config, steps: seq<Step>, r: nat)
    requires cfg.touchMinDays == 30 && r >= 30 * DAY && MonthOf(r) >= 2 && AllSpare(cfg, steps, MonthOf(r) - 2)
    ensures AllSpare(cfg, steps, MonthOf(r - cfg.touchMinDays * DAY))
  {
    ThirtyDaysBack(r);
    SparesLater(cfg, steps, MonthOf(r) - 2, MonthOf(r - 30 * DAY));
  }

  /** With the thirty-day throttle, at least the window less two months. */
  lemma RetentionThirtyDays(cfg: Config, s: Store, step: Step, id: EventId, r: nat, steps: seq<Step>)
    requires StoreOk(s) && cfg.touchMinDays == 30 && r >= 30 * DAY && MonthOf(r) >= 2
    requires UsedAt(cfg, s, step, id, r)
    requires AllSpare(cfg, steps, MonthOf(r) - 2)
    ensures var u := Next(cfg, s, step);
            id in u.events && Lives(u.events, Run(cfg, u, steps).events, id)
  {
    TwoMonthsSpare(cfg, steps, r);
    RetentionGuarantee(cfg, s, step, id, r, steps);
  }

  // ---- "six months after the last read" ---------------------------------------------

  /** No drop run up to month `m` removes the event, if nothing touches it in between. */
  ghost predicate KeptThrough(cfg: Config, s: Store, id: EventId, m: int) {
    forall t: nat :: MonthOf(t) <= m && DropSpec(cfg, s, None, t).Done? ==> id in DropSpec(cfg, s, None, t).value.events
  }

  lemma KeptThroughIff(cfg: Config, s: Store, id: EventId, m: nat)
    requires EventsOk(s) && id in s.events && WindowOk(m, cfg.retentionMonths)
    ensures KeptThrough(cfg, s, id, m) <==> m <= MonthOf(s.events[id].touchedAt) + cfg.retentionMonths
  {
    MonthStartSpread(m, m + 1);
    MonthsTile(FirstInstant(m), m);
    DropIsExact(cfg, s, None, FirstInstant(m), id);
    if m <= MonthOf(s.events[id].touchedAt) + cfg.retentionMonths {
      forall t: nat | MonthOf(t) <= m && DropSpec(cfg, s, None, t).Done?
        ensures id in DropSpec(cfg, s, None, t).value.events
      {
        DropIsExact(cfg, s, None, t, id);
      }
    }
  }

  lemma FullWindowIff(cfg: Config, s: Store, u: Store, id: EventId, r: nat)
    requires EventsOk(u) && id in s.events && s.events[id].touchedAt <= r && Renewed(cfg, s.events, u.events, id, r)
    requires cfg.retentionMonths >= 0 && MonthOf(r) >= 12
    ensures KeptThrough(cfg, u, id, MonthOf(r) + cfg.retentionMonths)
            <==> TouchDue(cfg, s.events[id], r) || MonthOf(s.events[id].touchedAt) == MonthOf(r)
  {
    MonthMonotone(s.events[id].touchedAt, r);
    KeptThroughIff(cfg, u, id, MonthOf(r) + cfg.retentionMonths);
  }

  /** The window after a first-page read or a citation is a full one exactly when it wrote its touch,
      or the last touch was in its month. */
  lemma FullWindowAfterUseIff(cfg: Config, s: Store, step: Step, id: EventId, r: nat)
    requires StoreOk(s) && UsedAt(cfg, s, step, id, r) && s.events[id].touchedAt <= r
    requires cfg.retentionMonths >= 0 && MonthOf(r) >= 12
    ensures KeptThrough(cfg, Next(cfg, s, step), id, MonthOf(r) + cfg.retentionMonths)
            <==> TouchDue(cfg, s.events[id], r) || MonthOf(s.events[id].touchedAt) == MonthOf(r)
  {
    StepKeepsStore(cfg, s, step);
    UseRenews(cfg, s, step, id, r);
    FullWindowIff(cfg, s, Next(cfg, s, step), id, r);
  }

  lemma JanuaryAndMarch(year: nat)
    requires !IsLeap(year)
    ensures MonthOf(FirstInstant(12 * year + 2)) == 12 * year + 2
    ensures MonthOf(FirstInstant(12 * year) + 29 * DAY) == 12 * year
    ensures FirstInstant(12 * year) + 29 * DAY + 30 * DAY == FirstInstant(12 * year + 2)
  {
    var jan := 12 * year;
    assert jan % 12 == 0 && (jan + 1) % 12 == 1 && (jan + 1) / 12 == year;
    assert MonthStart(jan + 1) == MonthStart(jan) + 31;
    assert MonthStart(jan + 2) == MonthStart(jan) + 59;
    MonthStartSpread(jan + 2, jan + 3);
    MonthsTile(FirstInstant(jan + 2), jan + 2);
    MonthsTile(FirstInstant(jan) + 29 * DAY, jan);
  }

  /** The two-month bound is tight: outside leap years an event touched on 30 January and read on
      1 March is gone as soon as the window after January is over. */
  lemma MarchReadIsShort(cfg: Config, s: Store, step: Step, id: EventId, year: nat, t: nat)
    requires StoreOk(s) && cfg.touchMinDays == 30 && !IsLeap(year)
    requires ReadAt(cfg, s, step, id, FirstInstant(12 * year + 2))
    requires s.events[id].touchedAt == FirstInstant(12 * year) + 29 * DAY
    requires DropSpec(cfg, Next(cfg, s, step), None, t).Done?
    requires MonthOf(t) == MonthOf(FirstInstant(12 * year + 2)) - 1 + cfg.retentionMonths
    ensures id !in DropSpec(cfg, Next(cfg, s, step), None, t).value.events
  {
    var r := FirstInstant(12 * year + 2);
    JanuaryAndMarch(year);
    StepKeepsStore(cfg, s, step);
    ReadRenews(cfg, s, step, id, r);
    DropIsExact(cfg, Next(cfg, s, step), None, t, id);
  }

  // ---- partitions are there when they are needed ------------------------------------

  lemma DropSparesPartition(cfg: Config, s: Store, months: Option<int>, at: nat, m: nat)
    requires m in s.partitions && MonthOf(at) <= m + WindowOf(cfg, months)
    ensures m in Committed(DropSpec(cfg, s, months, at), s).partitions
  {
  }

  lemma StepSparesPartition(cfg: Config, s: Store, step: Step, m: nat)
    requires StoreOk(s) && m in s.partitions && Spares(cfg, step, m)
    ensures m in Next(cfg, s, step).partitions
  {
    if DropOf(cfg, step).Some? { DropStepDrops(cfg, s, step); } else { OnlyDropsRemove(cfg, s, step); }
  }

  lemma {:induction false} RunSparesPartition(cfg: Config, s: Store, steps: seq<Step>, m: nat)
    requires StoreOk(s) && m in s.partitions && AllSpare(cfg, steps, m)
    ensures m in Run(cfg, s, steps).partitions
  {
    if steps != [] {
      var before := steps[..|steps| - 1];
      assert AllSpare(cfg, before, m);
      RunSparesPartition(cfg, s, before, m);
      RunKeepsStore(cfg, s, before);
      assert Spares(cfg, steps[|steps| - 1], m);
      StepSparesPartition(cfg, Run(cfg, s, before), steps[|steps| - 1], m);
    }
  }

  lemma MaintainedPartition(cfg: Config, s: Store, ensureAt: nat, dropAt: nat, m: nat)
    requires MaintainSpec(cfg, s, ensureAt, dropAt).Done?
    requires MonthOf(ensureAt) <= m <= MonthOf(ensureAt) + 1 && MonthOf(dropAt) <= m + cfg.retentionMonths
    ensures m in Committed(MaintainSpec(cfg, s, ensureAt, dropAt), s).partitions
  {
    DropSparesPartition(cfg, EnsureSpec(s, ensureAt).value, None, dropAt, m);
  }

  /** Every writer of the month finds its partition. */
  ghost predicate WritableAt(cfg: Config, u: Store, w: nat) {
    && (forall e :: EventFits(cfg, e) ==> !AddSpec(cfg, u, e, w).Crashed?)
    && (forall id :: !TouchSpec(cfg, u.events, u.partitions, id, w).Crashed?)
  }

  lemma WritableIff(cfg: Config, u: Store, w: nat)
    requires MonthOf(w) in u.partitions
    ensures WritableAt(cfg, u, w)
  {
  }

  /** The drop runs of the steps come no later than month `m` and have windows of zero or more. */
  ghost predicate DropsBy(cfg: Config, steps: seq<Step>, m: nat) {
    forall i :: 0 <= i < |steps| ==> DropsByAt(cfg, steps[i], m)
  }

  predicate DropsByAt(cfg: Config, step: Step, m: nat) {
    var d := DropOf(cfg, step);
    d.Some? ==> MonthOf(d.value.0) <= m && d.value.1 >= 0
  }

  lemma DropsBySpare(cfg: Config, steps: seq<Step>, m: nat)
    requires DropsBy(cfg, steps, m)
    ensures AllSpare(cfg, steps, m)
  {
    forall i | 0 <= i < |steps| ensures Spares(cfg, steps[i], m) { assert DropsByAt(cfg, steps[i], m); }
  }

  /** After a maintenance run in month m, every write in m or m + 1 finds its partition, as long as
      the windows are not negative and no drop run is of a later month than the write. */
  lemma WritesFindTheirPartition(cfg: Config, s: Store, ensureAt: nat, dropAt: nat, steps: seq<Step>, w: nat)
    requires StoreOk(s) && MaintainSpec(cfg, s, ensureAt, dropAt).Done?
    requires MonthOf(ensureAt) <= MonthOf(w) <= MonthOf(ensureAt) + 1
    requires MonthOf(dropAt) <= MonthOf(w) && cfg.retentionMonths >= 0
    requires DropsBy(cfg, steps, MonthOf(w))
    ensures MonthOf(w) in Run(cfg, Next(cfg, s, Maintain(ensureAt, dropAt)), steps).partitions
    ensures WritableAt(cfg, Run(cfg, Next(cfg, s, Maintain(ensureAt, dropAt)), steps), w)
  {
    var u := Next(cfg, s, Maintain(ensureAt, dropAt));
    StepKeepsStore(cfg, s, Maintain(ensureAt, dropAt));
    MaintainedPartition(cfg, s, ensureAt, dropAt, MonthOf(w));
    DropsBySpare(cfg, steps, MonthOf(w));
    RunSparesPartition(cfg, u, steps, MonthOf(w));
    WritableIff(cfg, Run(cfg, u, steps), w);
  }

  // ---- a cited event always answers -------------------------------------------------

  lemma CitedStays(s: Store, u: Store, id: EventId, url: string, at: nat)
    requires Grown(s.tables, u.tables) && CitedAt(s.tables, id, url, at)
    ensures CitedAt(u.tables, id, url, at)
  {
    var i :| 0 <= i < |s.tables.citations| && IsCited(s.tables, s.tables.citations[i], id, url, at);
    assert u.tables.citations[i] == s.tables.citations[i];
  }

  /** The answers a reader of a cited event can get. */
  ghost predicate AnswersCited(cfg: Config, u: Store, id: EventId, at: nat, offset: Option<int>, maxChars: Option<int>,
                               rows: seq<CitedUrl>, now: nat)
  {
    var answer := ReadSpec(cfg, u, id, offset, maxChars, rows, now).0;
    if id in u.events then
      if StartOf(offset) == 0 && TouchDue(cfg, u.events[id], now) && MonthOf(now) !in u.partitions then answer == Crashed
      else answer == Done(Read(PageOf(cfg, u.events[id].content, offset, maxChars)))
    else
      && rows != [] && answer == Done(Dropped(Distinct(rows)))
      && Distinct(rows) != [] && Distinct(rows)[0] == rows[0].url
      && CitedAt(u.tables, id, rows[0].url, rows[0].changedAt)
      && (forall other, t: nat :: CitedAt(u.tables, id, other, t) ==> t <= rows[0].changedAt)
      && at <= rows[0].changedAt
  }

  lemma CitedAnswers(cfg: Config, u: Store, id: EventId, url: string, at: nat,
                     offset: Option<int>, maxChars: Option<int>, rows: seq<CitedUrl>, now: nat)
    requires CitedAt(u.tables, id, url, at) && cfg.defaultLimit > 0
    requires IsNewestFirst(CitedRows(u.tables, id, |u.tables.citations|), cfg.defaultLimit, rows)
    ensures AnswersCited(cfg, u, id, at, offset, maxChars, rows, now)
  {
    NewestLinkFirst(u.tables, id, cfg.defaultLimit, rows);
    DistinctShape(rows);
  }

  /** Once a committed revision cites an event with a link, every later read gives the stored
      payload or a list headed by the newest cited link. The one exception is a first-page read
      whose touch is due in a month without a partition. */
  lemma CitedEventAnswers(cfg: Config, s: Store, steps: seq<Step>, id: EventId, url: string, at: nat,
                          offset: Option<int>, maxChars: Option<int>, rows: seq<CitedUrl>, now: nat)
    requires StoreOk(s) && CitedAt(s.tables, id, url, at) && cfg.defaultLimit > 0
    requires var u := Run(cfg, s, steps); IsNewestFirst(CitedRows(u.tables, id, |u.tables.citations|), cfg.defaultLimit, rows)
    ensures AnswersCited(cfg, Run(cfg, s, steps), id, at, offset, maxChars, rows, now)
  {
    RunKeepsStore(cfg, s, steps);
    CitedStays(s, Run(cfg, s, steps), id, url, at);
    CitedAnswers(cfg, Run(cfg, s, steps), id, url, at, offset, maxChars, rows, now);
  }
}
