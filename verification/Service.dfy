/** Whole runs of the service: every tool call and job is one transaction on one store. */
module Service {
  import opened Wrappers
  import opened Text
  import opened Calendar
  import opened Namespaces
  import opened Database
  import opened RawEvents
  import opened Partitions
  import opened Facts
  import opened SerialWrites
  import opened FactWrites
  import opened BatchLaws
  import opened Ingest

  /** One committed or refused transaction, with the clock readings it makes. */
  datatype Step =
    | Write(req: WriteRequest, now: nat, txnNow: nat)
    | WriteMany(items: seq<Item>, txnNow: nat)
    | LogEvent(logArgs: LogArgs, now: nat)
    | IngestOne(args: IngestArgs, now: nat)
    | ReadEvent(id: EventId, offset: Option<int>, maxChars: Option<int>, txnNow: nat)
    | Maintain(ensureAt: nat, dropAt: nat)
    | DropIdle(months: Option<int>, dropAt: nat)
    | PutNamespace(nsArgs: NamespaceArgs)
    | PutSource(key: string, active: bool)
    | ResetIngest(sourceKey: string, confirm: bool)

  /** A transaction that does not complete leaves the store as it was. */
  function Committed(r: Outcome<Store>, s: Store): Store {
    if r.Done? then r.value else s
  }

  function BatchStore(cfg: Config, s: Store, jobs: seq<Job>, txnNow: nat): Store {
    var r := BatchSpec(cfg, s, jobs, |jobs|, txnNow);
    if r.Done? then r.value.1 else s
  }

  function MaintainSpec(cfg: Config, s: Store, ensureAt: nat, dropAt: nat): Outcome<Store> {
    match EnsureSpec(s, ensureAt)
    case Done(u) => DropSpec(cfg, u, None, dropAt)
    case other => other
  }

  const SOURCE_KEY_WIDTH: nat := 256

  /** A source is created or changed; only whether it is active matters here. */
  function SourceSpec(s: Store, key: string, active: bool): Store {
    if Strip(key) == "" || !Fits(Strip(key), SOURCE_KEY_WIDTH) then s else s.(sources := s.sources[Strip(key) := active])
  }

  /** A source whose key fits is found from then on exactly when it was put as active; the built-in one is
      always found. Other sources stay as they are. */
  lemma PutSourceIs(s: Store, key: string, active: bool, other: string)
    ensures var u, name := SourceSpec(s, key, active), Strip(key);
            && (HasText(key) && Storable(name) && |name| <= 256 ==>
                  (FindSource(u.sources, name).Done? <==> active || name == "user_session"))
            && (other != name ==> FindSource(u.sources, other) == FindSource(s.sources, other))
            && (!HasText(key) || !Storable(name) || |name| > 256 ==> u == s)
            && u == s.(sources := u.sources)
  {
    BlankIff(key);
    StripIsTrimmed(key);
    if Fits(Strip(key), SOURCE_KEY_WIDTH) { TrimmedIsNotCut(Strip(key), SOURCE_KEY_WIDTH); }
  }

  function Next(cfg: Config, s: Store, step: Step): Store {
    match step
    case Write(req, now, txnNow) => WriteSpec(cfg, s, req, now, txnNow).1
    case WriteMany(items, txnNow) =>
      if 1 <= |items| <= MAX_BATCH then BatchStore(cfg, s, Jobs(cfg, s.namespaces, items), txnNow) else s
    case LogEvent(args, now) => Committed(LogSpec(cfg, s, args, now), s)
    case IngestOne(args, now) => IngestSpec(cfg, s, args, now).1
    case ReadEvent(id, offset, maxChars, txnNow) => ReadSpec(cfg, s, id, offset, maxChars, [], txnNow).1
    case Maintain(ensureAt, dropAt) => Committed(MaintainSpec(cfg, s, ensureAt, dropAt), s)
    case DropIdle(months, dropAt) => Committed(DropSpec(cfg, s, months, dropAt), s)
    case PutNamespace(args) => UpsertSpec(s, args).1
    case PutSource(key, active) => SourceSpec(s, key, active)
    case ResetIngest(key, confirm) => Committed(ResetSpec(s, key, confirm), s)
  }

  function Run(cfg: Config, s: Store, steps: seq<Step>): Store {
    if steps == [] then s else Next(cfg, Run(cfg, s, steps[..|steps| - 1]), steps[|steps| - 1])
  }

  lemma RunMore(cfg: Config, s: Store, steps: seq<Step>, step: Step)
    ensures Run(cfg, s, steps + [step]) == Next(cfg, Run(cfg, s, steps), step)
  {
    assert (steps + [step])[..|steps|] == steps;
  }

  lemma {:induction false} RunAppend(cfg: Config, s: Store, a: seq<Step>, b: seq<Step>)
    ensures Run(cfg, s, a + b) == Run(cfg, Run(cfg, s, a), b)
  {
    if b == [] {
      assert a + b == a;
    } else {
      assert a + b == (a + b[..|b| - 1]) + [b[|b| - 1]];
      RunAppend(cfg, s, a, b[..|b| - 1]);
      RunMore(cfg, s, a + b[..|b| - 1], b[|b| - 1]);
    }
  }

  // ---- commit and rollback ----------------------------------------------------------

  /** `_run` around one write: commit on success, roll back on an error. */
  method RunWrite(committed: Store, cfg: Config, req: WriteRequest, now: nat, txnNow: nat)
    returns (r: Outcome<WriteAnswer>, after: Store)
    requires NamespacesOk(committed.namespaces)
    ensures (r, after) == WriteSpec(cfg, committed, req, now, txnNow)
    ensures after == Next(cfg, committed, Write(req, now, txnNow))
  {
    var session := new Session(committed);
    r := WriteFact(session, cfg, req, now, txnNow);
    RefusedWriteIsNothing(cfg, committed, req, now, txnNow);
    after := if r.Done? then session.db else committed;
  }

  lemma RefusedWriteIsNothing(cfg: Config, s: Store, req: WriteRequest, now: nat, txnNow: nat)
    ensures !WriteSpec(cfg, s, req, now, txnNow).0.Done? ==> WriteSpec(cfg, s, req, now, txnNow).1 == s
  {
  }

  /** What a batch answers: one answer per item and their count, a refusal for a bad number of items,
      or a database error. */
  function BatchReply(cfg: Config, s: Store, items: seq<Item>, txnNow: nat): Outcome<BatchAnswer> {
    if !(1 <= |items| <= MAX_BATCH) then Refused(Invalid)
    else
      match BatchSpec(cfg, s, Jobs(cfg, s.namespaces, items), |items|, txnNow)
      case Done((answers, _)) => Done(BatchAnswer(|items|, CountAnswered(answers), answers))
      case _ => Crashed
  }

  /** A batch has between 1 and 10 items, and its answer one for each. */
  lemma BatchSizeIs(cfg: Config, s: Store, items: seq<Item>, txnNow: nat)
    ensures BatchReply(cfg, s, items, txnNow).Refused? <==> |items| == 0 || |items| > 10
    ensures BatchReply(cfg, s, items, txnNow).Done? ==>
              var answer := BatchReply(cfg, s, items, txnNow).value;
              answer.count == |items| == |answer.items| && answer.written == CountAnswered(answer.items)
  {
    if 1 <= |items| <= 10 && BatchReply(cfg, s, items, txnNow).Done? {
      AnswersPerItem(cfg, s, Jobs(cfg, s.namespaces, items), |items|, txnNow);
    }
  }

  lemma {:induction false} AnswersPerItem(cfg: Config, s: Store, jobs: seq<Job>, n: nat, txnNow: nat)
    requires n <= |jobs| && BatchSpec(cfg, s, jobs, n, txnNow).Done?
    ensures |BatchSpec(cfg, s, jobs, n, txnNow).value.0| == n
  {
    if n > 0 { AnswersPerItem(cfg, s, jobs, n - 1, txnNow); }
  }

  /** `_run` around a batch. */
  method RunBatch(committed: Store, cfg: Config, items: seq<Item>, txnNow: nat) returns (r: Outcome<BatchAnswer>, after: Store)
    requires NamespacesOk(committed.namespaces)
    ensures after == Next(cfg, committed, WriteMany(items, txnNow))
    ensures !r.Done? ==> after == committed
    ensures r == BatchReply(cfg, committed, items, txnNow)
  {
    var session := new Session(committed);
    r := WriteFacts(session, cfg, items, txnNow);
    after := if r.Done? then session.db else committed;
  }

  // ---- events under writes ----------------------------------------------------------

  /** The same rows with the same payloads, touched no earlier than before, in partitions. */
  ghost predicate Touched(before: Events, after: Events, partitions: set<nat>) {
    && after.Keys == before.Keys
    && forall id :: id in before ==>
         && after[id] == before[id].(touchedAt := after[id].touchedAt)
         && after[id].touchedAt >= before[id].touchedAt
         && (MonthOf(before[id].touchedAt) in partitions ==> MonthOf(after[id].touchedAt) in partitions)
  }

  lemma TouchTouches(cfg: Config, events: Events, partitions: set<nat>, id: EventId, now: nat)
    requires TouchSpec(cfg, events, partitions, id, now).Done?
    ensures Touched(events, TouchSpec(cfg, events, partitions, id, now).value, partitions)
  {
  }

  lemma {:induction false} TouchFirstTouches(cfg: Config, events: Events, partitions: set<nat>, refs: seq<SourceRef>, n: nat, now: nat)
    requires n <= |refs| && TouchFirst(cfg, events, partitions, refs, n, now).Done?
    ensures Touched(events, TouchFirst(cfg, events, partitions, refs, n, now).value, partitions)
  {
    if n > 0 {
      TouchFirstTouches(cfg, events, partitions, refs, n - 1, now);
      var before := TouchFirst(cfg, events, partitions, refs, n - 1, now).value;
      if EventOf(cfg, refs[n - 1]).Some? {
        TouchTouches(cfg, before, partitions, EventOf(cfg, refs[n - 1]).value, now);
      }
    }
  }

  lemma PreparedEvents(cfg: Config, s: Store, p: Prepared, now: nat, txnNow: nat)
    ensures var u := WritePrepared(cfg, s, p, now, txnNow).1;
            u.events == s.events || TouchFirst(cfg, s.events, s.partitions, p.refs, |p.refs|, txnNow) == Done(u.events)
  {
  }

  lemma PreparedTouches(cfg: Config, s: Store, p: Prepared, now: nat, txnNow: nat)
    ensures Touched(s.events, WritePrepared(cfg, s, p, now, txnNow).1.events, s.partitions)
  {
    PreparedEvents(cfg, s, p, now, txnNow);
    if TouchFirst(cfg, s.events, s.partitions, p.refs, |p.refs|, txnNow).Done? {
      TouchFirstTouches(cfg, s.events, s.partitions, p.refs, |p.refs|, txnNow);
    }
  }

  lemma JobTouches(cfg: Config, s: Store, job: Job, txnNow: nat)
    requires JobSpec(cfg, s, job, txnNow).Done?
    ensures Touched(s.events, JobSpec(cfg, s, job, txnNow).value.1.events, s.partitions)
  {
    if job.Job? { PreparedTouches(cfg, s, job.p, job.now, txnNow); }
  }

  lemma {:induction false} BatchTouches(cfg: Config, s: Store, jobs: seq<Job>, n: nat, txnNow: nat)
    requires n <= |jobs| && BatchSpec(cfg, s, jobs, n, txnNow).Done?
    ensures Touched(s.events, BatchSpec(cfg, s, jobs, n, txnNow).value.1.events, s.partitions)
    ensures BatchSpec(cfg, s, jobs, n, txnNow).value.1.partitions == s.partitions
  {
    if n > 0 {
      BatchTouches(cfg, s, jobs, n - 1, txnNow);
      var u := BatchSpec(cfg, s, jobs, n - 1, txnNow).value.1;
      JobTouches(cfg, u, jobs[n - 1], txnNow);
      JobKeepsRest(cfg, u, jobs[n - 1], txnNow);
    }
  }

  lemma JobKeepsRest(cfg: Config, s: Store, job: Job, txnNow: nat)
    requires JobSpec(cfg, s, job, txnNow).Done?
    ensures var u := JobSpec(cfg, s, job, txnNow).value.1; u == s.(tables := u.tables, events := u.events)
  {
    if job.Job? { PreparedKeepsNamespaces(cfg, s, job.p, job.now, txnNow); }
  }

  // ---- tables under writes ----------------------------------------------------------

  /** The owner of every fact accepts its key. */
  ghost predicate FactsOwned(rows: Rows, t: Tables) {
    forall key :: key in t.facts ==> Accepts(rows, t.facts[key].namespace, key)
  }

  /** Facts keep their namespace, revisions are never altered, citations are only added. */
  ghost predicate Grown(t: Tables, u: Tables) {
    && (forall key :: key in t.facts ==> key in u.facts && u.facts[key].namespace == t.facts[key].namespace)
    && (forall id :: id in t.revisions ==> id in u.revisions && u.revisions[id] == t.revisions[id])
    && t.citations <= u.citations
  }

  ghost predicate EntriesAccepted(rows: Rows, es: seq<Entry>) {
    forall i :: 0 <= i < |es| ==> Accepts(rows, es[i].op.p.namespace, es[i].op.p.key)
  }

  lemma DeltaGrows(cfg: Config, t: Tables, p: Prepared, now: nat)
    requires RevisionIdOf(p, RowOf(t, p.key)) !in t.revisions
    ensures Grown(t, WithRows(t, Delta(cfg, p, RowOf(t, p.key), now)))
  {
  }

  lemma OneWriteGrows(cfg: Config, t: Tables, op: Op)
    requires HistoryOk(t)
    ensures Grown(t, WithRows(t, Added(cfg, t, op)))
  {
    if IsWrite(SerialReply(cfg, t, op)) {
      NextRevisionIsFree(t, op.p.key);
      DeltaGrows(cfg, t, op.p, op.now);
    } else {
      NoRowsAdded(t);
    }
  }

  lemma AddedFacts(cfg: Config, t: Tables, op: Op)
    ensures forall key :: key in Added(cfg, t, op).facts ==>
              key == op.p.key
              && Added(cfg, t, op).facts[key].namespace == if key in t.facts then t.facts[key].namespace else op.p.namespace
  {
  }

  lemma OneWriteOwned(cfg: Config, rows: Rows, t: Tables, op: Op)
    requires FactsOwned(rows, t) && Accepts(rows, op.p.namespace, op.p.key)
    ensures FactsOwned(rows, WithRows(t, Added(cfg, t, op)))
  {
    AddedFacts(cfg, t, op);
    var d := Added(cfg, t, op);
    var u := WithRows(t, d);
    forall key | key in u.facts ensures Accepts(rows, u.facts[key].namespace, key) {
      if key in t.facts { assert Accepts(rows, t.facts[key].namespace, key); }
    }
  }

  lemma {:induction false} SerialGrows(cfg: Config, rows: Rows, t: Tables, es: seq<Entry>)
    requires HistoryOk(t) && FactsOwned(rows, t) && EntriesAccepted(rows, es)
    ensures HistoryOk(Serial(cfg, t, es)) && FactsOwned(rows, Serial(cfg, t, es)) && Grown(t, Serial(cfg, t, es))
  {
    if es == [] {
      SerialEmpty(cfg, t);
    } else {
      var before, e := es[..|es| - 1], es[|es| - 1];
      assert es == before + [e];
      assert EntriesAccepted(rows, before);
      SerialGrows(cfg, rows, t, before);
      SerialLast(cfg, t, before, e);
      var u := Serial(cfg, t, before);
      OneWrite(cfg, u, e.op);
      OneWriteGrows(cfg, u, e.op);
      OneWriteOwned(cfg, rows, u, e.op);
    }
  }

  ghost predicate JobsAccepted(rows: Rows, jobs: seq<Job>) {
    forall i :: 0 <= i < |jobs| && jobs[i].Job? ==> Accepts(rows, jobs[i].p.namespace, jobs[i].p.key)
  }

  lemma {:induction false} EntriesOfJobs(cfg: Config, rows: Rows, s: Store, jobs: seq<Job>, n: nat, txnNow: nat)
    requires n <= |jobs| && JobsAccepted(rows, jobs)
    ensures EntriesAccepted(rows, EntriesOf(cfg, s, jobs, n, txnNow))
  {
    if n > 0 { EntriesOfJobs(cfg, rows, s, jobs, n - 1, txnNow); }
  }

  /** A prepared write is for a key that its namespace's template accepts. */
  lemma PreparedIsAccepted(cfg: Config, rows: Rows, req: WriteRequest)
    requires NamespacesOk(rows) && Prepare(cfg, rows, req).Done?
    ensures var p := Prepare(cfg, rows, req).value;
            && Accepts(rows, p.namespace, p.key)
            && KeySpec(cfg, rows, req) == Done(p.key)
            && Resolve(rows, p.key) == Some(p.namespace)
  {
    var key := KeySpec(cfg, rows, req).value;
    KeySpecIsTrimmed(cfg, rows, req);
    StripTrimmed(key);
    ResolveIsLongest(rows, key, Resolve(rows, key).value);
  }

  lemma KeySpecIsTrimmed(cfg: Config, rows: Rows, req: WriteRequest)
    requires NamespacesOk(rows) && KeySpec(cfg, rows, req).Done?
    ensures Trimmed(KeySpec(cfg, rows, req).value)
  {
    var ns := Given(req.namespace);
    if ns.Some? {
      var name := Lower(Strip(ns.value));
      BuiltKeyIsTrimmed(cfg.fold, name, rows[name].template, req.parts);
    } else if Given(req.factKey).Some? {
      StripIsTrimmed(req.factKey.value);
    }
  }

  lemma JobsAreAccepted(cfg: Config, rows: Rows, items: seq<Item>)
    requires NamespacesOk(rows)
    ensures JobsAccepted(rows, Jobs(cfg, rows, items))
  {
    var jobs := Jobs(cfg, rows, items);
    forall i | 0 <= i < |jobs| && jobs[i].Job? ensures Accepts(rows, jobs[i].p.namespace, jobs[i].p.key) {
      PreparedIsAccepted(cfg, rows, items[i].req);
    }
  }

  /** A single write is a batch of one. */
  lemma WriteIsBatch(cfg: Config, s: Store, req: WriteRequest, now: nat, txnNow: nat)
    ensures Next(cfg, s, Write(req, now, txnNow)) == BatchStore(cfg, s, [JobOf(cfg, s.namespaces, Call(req, now))], txnNow)
  {
    CallIsJob(cfg, s, req, now, txnNow);
    RefusedWriteIsNothing(cfg, s, req, now, txnNow);
    var jobs := [JobOf(cfg, s.namespaces, Call(req, now))];
    assert BatchSpec(cfg, s, jobs, 0, txnNow) == Done(([], s));
  }

  // ---- the invariant of the store ---------------------------------------------------

  ghost predicate StoreOk(s: Store) {
    && NamespacesOk(s.namespaces)
    && HistoryOk(s.tables)
    && FactsOwned(s.namespaces, s.tables)
    && EventsOk(s)
    && PartitionsOk(s.partitions)
    && HashKeysOk(s.ledger)
  }

  lemma BatchKeepsStore(cfg: Config, s: Store, jobs: seq<Job>, txnNow: nat)
    requires StoreOk(s) && JobsAccepted(s.namespaces, jobs)
    ensures StoreOk(BatchStore(cfg, s, jobs, txnNow))
    ensures Grown(s.tables, BatchStore(cfg, s, jobs, txnNow).tables)
    ensures Touched(s.events, BatchStore(cfg, s, jobs, txnNow).events, s.partitions)
    ensures var u := BatchStore(cfg, s, jobs, txnNow); u == s.(tables := u.tables, events := u.events)
  {
    if BatchSpec(cfg, s, jobs, |jobs|, txnNow).Done? {
      BatchIsSerial(cfg, s, jobs, |jobs|, txnNow);
      BatchTouches(cfg, s, jobs, |jobs|, txnNow);
      EntriesOfJobs(cfg, s.namespaces, s, jobs, |jobs|, txnNow);
      SerialGrows(cfg, s.namespaces, s.tables, EntriesOf(cfg, s, jobs, |jobs|, txnNow));
    }
  }

  /** What every step keeps of the tables and of the namespaces in use. */
  ghost predicate Kept(s: Store, u: Store) {
    && Grown(s.tables, u.tables)
    && s.nextEvent <= u.nextEvent
    && (forall ns :: ns in s.namespaces ==> ns in u.namespaces)
    && (forall ns :: ns in s.namespaces && InUse(s.tables.facts, ns) ==> u.namespaces[ns].template == s.namespaces[ns].template)
  }

  lemma WriteStepKeeps(cfg: Config, s: Store, step: Step)
    requires StoreOk(s) && (step.Write? || step.WriteMany?)
    ensures StoreOk(Next(cfg, s, step)) && Kept(s, Next(cfg, s, step))
    ensures Touched(s.events, Next(cfg, s, step).events, s.partitions)
    ensures Next(cfg, s, step) == s.(tables := Next(cfg, s, step).tables, events := Next(cfg, s, step).events)
  {
    if step.Write? {
      WriteIsBatch(cfg, s, step.req, step.now, step.txnNow);
      var items := [Call(step.req, step.now)];
      JobsAreAccepted(cfg, s.namespaces, items);
      assert Jobs(cfg, s.namespaces, items) == [JobOf(cfg, s.namespaces, items[0])];
      BatchKeepsStore(cfg, s, [JobOf(cfg, s.namespaces, items[0])], step.txnNow);
    } else {
      JobsAreAccepted(cfg, s.namespaces, step.items);
      BatchKeepsStore(cfg, s, Jobs(cfg, s.namespaces, step.items), step.txnNow);
    }
  }

  /** A store that differs only outside the tables and namespaces. */
  lemma OutsideTables(s: Store, u: Store)
    requires u.tables == s.tables && u.namespaces == s.namespaces && s.nextEvent <= u.nextEvent
    ensures Kept(s, u)
    ensures StoreOk(s) && EventsOk(u) && PartitionsOk(u.partitions) && HashKeysOk(u.ledger) ==> StoreOk(u)
  {
  }

  lemma AddKeeps(cfg: Config, s: Store, e: NewEvent, now: nat)
    requires EventsOk(s) && AddSpec(cfg, s, e, now).Done?
    ensures EventsOk(AddSpec(cfg, s, e, now).value)
  {
  }

  lemma UnitKeepsRest(cfg: Config, s: Store, unit: Unit, args: IngestArgs, now: nat)
    requires EventsOk(s)
    ensures var u := UnitSpec(cfg, s, unit, args, now).1;
            && EventsOk(u) && s.nextEvent <= u.nextEvent
            && u == s.(events := u.events, nextEvent := u.nextEvent, ledger := u.ledger)
  {
    var e := NewEventOf(unit, args);
    if AddSpec(cfg, s, e, now).Done? { AddKeeps(cfg, s, e, now); }
  }

  lemma IngestKeepsStore(cfg: Config, s: Store, source: string, args: IngestArgs, now: nat)
    requires StoreOk(s)
    ensures var u := UnitSpec(cfg, s, UnitOf(cfg, source, args), args, now).1; StoreOk(u) && Kept(s, u)
  {
    var unit := UnitOf(cfg, source, args);
    IngestKeepsHashKeys(cfg, s, source, args, now);
    UnitKeepsRest(cfg, s, unit, args, now);
    OutsideTables(s, UnitSpec(cfg, s, unit, args, now).1);
  }

  lemma IngestStepKeeps(cfg: Config, s: Store, args: IngestArgs, now: nat)
    requires StoreOk(s)
    ensures StoreOk(IngestSpec(cfg, s, args, now).1) && Kept(s, IngestSpec(cfg, s, args, now).1)
  {
    OutsideTables(s, s);
    var source := CrawlSource(s.sources, args.sourceKey);
    if source.Done? { IngestKeepsStore(cfg, s, source.value, args, now); }
  }

  lemma DropKeeps(cfg: Config, s: Store, months: Option<int>, now: nat)
    requires StoreOk(s) && DropSpec(cfg, s, months, now).Done?
    ensures StoreOk(DropSpec(cfg, s, months, now).value)
  {
  }

  lemma EnsureKeeps(s: Store, now: nat)
    requires StoreOk(s) && EnsureSpec(s, now).Done?
    ensures StoreOk(EnsureSpec(s, now).value)
  {
  }

  lemma OwnersStay(rows: Rows, after: Rows, t: Tables)
    requires FactsOwned(rows, t)
    requires forall ns :: ns in rows && InUse(t.facts, ns) ==> ns in after && after[ns].template == rows[ns].template
    ensures FactsOwned(after, t)
  {
    forall key | key in t.facts ensures Accepts(after, t.facts[key].namespace, key) {
      assert Accepts(rows, t.facts[key].namespace, key);
      assert InUse(t.facts, t.facts[key].namespace);
    }
  }

  lemma NamespacesReplaced(s: Store, u: Store)
    requires StoreOk(s) && u == s.(namespaces := u.namespaces) && NamespacesOk(u.namespaces)
    requires forall ns :: ns in s.namespaces ==> ns in u.namespaces
    requires forall ns :: ns in s.namespaces && InUse(s.tables.facts, ns) ==> u.namespaces[ns].template == s.namespaces[ns].template
    ensures StoreOk(u) && Kept(s, u)
  {
    OwnersStay(s.namespaces, u.namespaces, s.tables);
  }

  lemma NamespaceStepKeeps(s: Store, args: NamespaceArgs)
    requires StoreOk(s)
    ensures StoreOk(UpsertSpec(s, args).1) && Kept(s, UpsertSpec(s, args).1)
  {
    UpsertKeeps(s, args);
    UpsertOnlyNamespaces(s, args);
    NamespacesReplaced(s, UpsertSpec(s, args).1);
  }

  lemma EventsTouched(s: Store, u: Store)
    requires StoreOk(s) && u == s.(events := u.events) && Touched(s.events, u.events, s.partitions)
    ensures StoreOk(u) && Kept(s, u)
  {
    OutsideTables(s, u);
  }

  lemma ReadTouches(cfg: Config, s: Store, id: EventId, offset: Option<int>, maxChars: Option<int>, now: nat)
    ensures var u := ReadSpec(cfg, s, id, offset, maxChars, [], now).1;
            u == s.(events := u.events) && Touched(s.events, u.events, s.partitions)
  {
    if TouchSpec(cfg, s.events, s.partitions, id, now).Done? { TouchTouches(cfg, s.events, s.partitions, id, now); }
  }

  lemma LogStepKeeps(cfg: Config, s: Store, args: LogArgs, now: nat)
    requires StoreOk(s)
    ensures var u := Committed(LogSpec(cfg, s, args, now), s); StoreOk(u) && Kept(s, u)
  {
    LogKeepsRest(cfg, s, args, now);
    OutsideTables(s, Committed(LogSpec(cfg, s, args, now), s));
  }

  lemma LogKeepsRest(cfg: Config, s: Store, args: LogArgs, now: nat)
    requires EventsOk(s)
    ensures var u := Committed(LogSpec(cfg, s, args, now), s);
            u == s.(events := u.events, nextEvent := u.nextEvent) && EventsOk(u) && s.nextEvent <= u.nextEvent
  {
  }

  lemma DropStepKeeps(cfg: Config, s: Store, months: Option<int>, now: nat)
    requires StoreOk(s)
    ensures var u := Committed(DropSpec(cfg, s, months, now), s); StoreOk(u) && Kept(s, u)
  {
    if DropSpec(cfg, s, months, now).Done? { DropKeeps(cfg, s, months, now); }
    OutsideTables(s, Committed(DropSpec(cfg, s, months, now), s));
  }

  lemma MaintainStepKeeps(cfg: Config, s: Store, ensureAt: nat, dropAt: nat)
    requires StoreOk(s)
    ensures var u := Committed(MaintainSpec(cfg, s, ensureAt, dropAt), s); StoreOk(u) && Kept(s, u)
  {
    OutsideTables(s, s);
    if EnsureSpec(s, ensureAt).Done? {
      var u := EnsureSpec(s, ensureAt).value;
      EnsureKeeps(s, ensureAt);
      OutsideTables(s, u);
      DropStepKeeps(cfg, u, None, dropAt);
      KeptTwice(s, u, Committed(DropSpec(cfg, u, None, dropAt), u));
    }
  }

  lemma ResetStepKeeps(s: Store, key: string, confirm: bool)
    requires StoreOk(s)
    ensures var u := Committed(ResetSpec(s, key, confirm), s); StoreOk(u) && Kept(s, u)
  {
    OutsideTables(s, Committed(ResetSpec(s, key, confirm), s));
  }

  lemma DropJobKeeps(cfg: Config, s: Store, step: Step)
    requires StoreOk(s) && (step.Maintain? || step.DropIdle?)
    ensures StoreOk(Next(cfg, s, step)) && Kept(s, Next(cfg, s, step))
  {
    if step.Maintain? {
      MaintainStepKeeps(cfg, s, step.ensureAt, step.dropAt);
    } else {
      DropStepKeeps(cfg, s, step.months, step.dropAt);
    }
  }

  lemma SourceStepKeeps(s: Store, key: string, active: bool)
    requires StoreOk(s)
    ensures StoreOk(SourceSpec(s, key, active)) && Kept(s, SourceSpec(s, key, active))
  {
    OutsideTables(s, SourceSpec(s, key, active));
  }

  lemma ReadStepKeeps(cfg: Config, s: Store, step: Step)
    requires StoreOk(s) && step.ReadEvent?
    ensures StoreOk(Next(cfg, s, step)) && Kept(s, Next(cfg, s, step))
  {
    ReadTouches(cfg, s, step.id, step.offset, step.maxChars, step.txnNow);
    EventsTouched(s, Next(cfg, s, step));
  }

  /** Every step keeps the store well formed. */
  lemma StepKeepsStore(cfg: Config, s: Store, step: Step)
    requires StoreOk(s)
    ensures StoreOk(Next(cfg, s, step)) && Kept(s, Next(cfg, s, step))
  {
    match step
    case Write(_, _, _) => WriteStepKeeps(cfg, s, step);
    case WriteMany(_, _) => WriteStepKeeps(cfg, s, step);
    case LogEvent(args, now) => LogStepKeeps(cfg, s, args, now);
    case IngestOne(args, now) => IngestStepKeeps(cfg, s, args, now);
    case ReadEvent(_, _, _, _) => ReadStepKeeps(cfg, s, step);
    case Maintain(_, _) => DropJobKeeps(cfg, s, step);
    case DropIdle(_, _) => DropJobKeeps(cfg, s, step);
    case PutNamespace(args) => NamespaceStepKeeps(s, args);
    case PutSource(key, active) => SourceStepKeeps(s, key, active);
    case ResetIngest(key, confirm) => ResetStepKeeps(s, key, confirm);
  }

  lemma {:induction false} RunKeepsStore(cfg: Config, s: Store, steps: seq<Step>)
    requires StoreOk(s)
    ensures StoreOk(Run(cfg, s, steps)) && Kept(s, Run(cfg, s, steps))
  {
    if steps != [] {
      RunKeepsStore(cfg, s, steps[..|steps| - 1]);
      var u := Run(cfg, s, steps[..|steps| - 1]);
      StepKeepsStore(cfg, u, steps[|steps| - 1]);
      KeptTwice(s, u, Run(cfg, s, steps));
    }
  }

  lemma InUseStays(s: Store, u: Store, ns: string)
    requires Grown(s.tables, u.tables) && InUse(s.tables.facts, ns)
    ensures InUse(u.tables.facts, ns)
  {
    var key :| key in s.tables.facts && s.tables.facts[key].namespace == ns;
    assert key in u.tables.facts;
  }

  lemma KeptTwice(s: Store, u: Store, v: Store)
    requires Kept(s, u) && Kept(u, v)
    ensures Kept(s, v)
  {
    forall ns | ns in s.namespaces && InUse(s.tables.facts, ns) ensures v.namespaces[ns].template == s.namespaces[ns].template {
      InUseStays(s, u, ns);
    }
  }
}
