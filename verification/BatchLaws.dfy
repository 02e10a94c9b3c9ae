/** What batches of fact writes guarantee, and exactly what breaks their items' independence. */
module BatchLaws {
  import opened Wrappers
  import opened Text
  import opened Calendar
  import opened Namespaces
  import opened Database
  import opened RawEvents
  import opened Facts
  import opened SerialWrites
  import opened FactWrites

  // ---- one atomic write -------------------------------------------------------------

  /** The reference is to an event whose touch is due. */
  predicate IsDue(cfg: Config, events: Events, ref: SourceRef, now: nat) {
    var id := EventOf(cfg, ref);
    id.Some? && id.value in events && TouchDue(cfg, events[id.value], now)
  }

  predicate NoBadUuid(cfg: Config, refs: seq<SourceRef>, n: nat)
    requires n <= |refs|
  {
    forall i :: 0 <= i < n ==> !BadUuid(cfg, refs[i])
  }

  predicate NoneDue(cfg: Config, events: Events, refs: seq<SourceRef>, n: nat, now: nat)
    requires n <= |refs|
  {
    forall i :: 0 <= i < n ==> !IsDue(cfg, events, refs[i], now)
  }

  lemma {:induction false} TouchOutcome(cfg: Config, events: Events, partitions: set<nat>, refs: seq<SourceRef>, n: nat, now: nat)
    requires n <= |refs|
    ensures match TouchFirst(cfg, events, partitions, refs, n, now)
            case Done(u) =>
              && NoBadUuid(cfg, refs, n)
              && (MonthOf(now) !in partitions ==> u == events && NoneDue(cfg, events, refs, n, now))
            case Refused(e) =>
              && e == Invalid
              && exists i :: 0 <= i < n && BadUuid(cfg, refs[i]) && NoBadUuid(cfg, refs, i)
                             && (MonthOf(now) !in partitions ==> NoneDue(cfg, events, refs, i, now))
            case Crashed =>
              && MonthOf(now) !in partitions
              && exists i :: 0 <= i < n && IsDue(cfg, events, refs[i], now) && NoBadUuid(cfg, refs, i + 1)
  {
    if n > 0 { TouchOutcome(cfg, events, partitions, refs, n - 1, now); }
  }

  /** A touch is due, no event id before it is unreadable, and the month has no partition. */
  predicate TouchCrashes(cfg: Config, s: Store, refs: seq<SourceRef>, now: nat) {
    && MonthOf(now) !in s.partitions
    && exists i :: 0 <= i < |refs| && IsDue(cfg, s.events, refs[i], now) && NoBadUuid(cfg, refs, i + 1)
  }

  lemma TouchCrashesIff(cfg: Config, s: Store, refs: seq<SourceRef>, now: nat)
    ensures TouchFirst(cfg, s.events, s.partitions, refs, |refs|, now).Crashed? <==> TouchCrashes(cfg, s, refs, now)
    ensures TouchFirst(cfg, s.events, s.partitions, refs, |refs|, now).Done? ==> !AnyBadUuid(cfg, refs)
    ensures TouchFirst(cfg, s.events, s.partitions, refs, |refs|, now).Refused? ==> AnyBadUuid(cfg, refs)
  {
    TouchOutcome(cfg, s.events, s.partitions, refs, |refs|, now);
  }

  /** What the database refuses of a write that the service goes on with. */
  predicate FlushBreaks(cfg: Config, s: Store, p: Prepared, txnNow: nat) {
    || !RowFits(p) || !RevisionFits(p)
    || TouchCrashes(cfg, s, p.refs, txnNow)
    || (!AnyBadUuid(cfg, p.refs) && !CitationsFit(p.refs))
  }

  lemma FlushOutcome(cfg: Config, s: Store, p: Prepared, row: Option<FactRow>, now: nat, txnNow: nat)
    ensures match FlushSpec(cfg, s, p, row, now, txnNow)
            case Done(u) => !AnyBadUuid(cfg, p.refs) && u.tables == WithRows(s.tables, Delta(cfg, p, row, now))
            case Refused(e) => e == Invalid && AnyBadUuid(cfg, p.refs)
            case Crashed => true
    ensures RevisionIdOf(p, row) !in s.tables.revisions ==>
              (FlushSpec(cfg, s, p, row, now, txnNow).Crashed? <==> FlushBreaks(cfg, s, p, txnNow))
  {
    TouchOutcome(cfg, s.events, s.partitions, p.refs, |p.refs|, txnNow);
    TouchCrashesIff(cfg, s, p.refs, txnNow);
  }

  /** A write that is not lost to a database error does exactly one step of a serial run: this ties
      the session's code to the reference that the concurrent protocol refines. */
  lemma AtomicWriteIsSerialStep(cfg: Config, s: Store, p: Prepared, now: nat, txnNow: nat)
    requires !WritePrepared(cfg, s, p, now, txnNow).0.Crashed?
    ensures WritePrepared(cfg, s, p, now, txnNow).0 == SerialReply(cfg, s.tables, Op(p, now, s.sources))
    ensures WritePrepared(cfg, s, p, now, txnNow).1.tables == WithRows(s.tables, Added(cfg, s.tables, Op(p, now, s.sources)))
  {
    FlushOutcome(cfg, s, p, RowOf(s.tables, p.key), now, txnNow);
    NoRowsAdded(s.tables);
  }

  // ---- batches are serial runs ------------------------------------------------------

  predicate IsWritten(a: ItemAnswer) {
    a.Answered? && a.answer.Wrote?
  }

  /** How many answers report a new revision. */
  function CountWritten(answers: seq<ItemAnswer>): nat {
    if answers == [] then 0
    else CountWritten(answers[..|answers| - 1]) + if IsWritten(answers[|answers| - 1]) then 1 else 0
  }

  /** The entry of a job that ran. */
  function EntryOf(cfg: Config, s: Store, job: Job, txnNow: nat): Entry
    requires job.Job?
  {
    Entry(Op(job.p, job.now, s.sources), WritePrepared(cfg, s, job.p, job.now, txnNow).0)
  }

  lemma JobIsSerialStep(cfg: Config, s: Store, job: Job, txnNow: nat)
    requires job.Job? && JobSpec(cfg, s, job, txnNow).Done?
    ensures var (a, u) := JobSpec(cfg, s, job, txnNow).value;
            var e := EntryOf(cfg, s, job, txnNow);
            && u == s.(tables := u.tables, events := u.events)
            && u.tables == WithRows(s.tables, Added(cfg, s.tables, e.op))
            && e.reply == SerialReply(cfg, s.tables, e.op)
            && (IsWritten(a) <==> Accepted(e))
  {
    PreparedKeepsNamespaces(cfg, s, job.p, job.now, txnNow);
    AtomicWriteIsSerialStep(cfg, s, job.p, job.now, txnNow);
    NoRowsAdded(s.tables);
  }

  lemma AddedRevisions(cfg: Config, t: Tables, op: Op)
    requires HistoryOk(t)
    ensures |WithRows(t, Added(cfg, t, op)).revisions|
            == |t.revisions| + if IsWrite(SerialReply(cfg, t, op)) then 1 else 0
  {
    OneWrite(cfg, t, op);
    if IsWrite(SerialReply(cfg, t, op)) {
      var id := RevisionIdOf(op.p, RowOf(t, op.p.key));
      OneMore(t.revisions, id, NewRevision(op.p, op.now));
    }
  }

  lemma OneMore(m: map<RevisionId, Revision>, id: RevisionId, r: Revision)
    requires id !in m
    ensures |m + map[id := r]| == |m| + 1
  {
    assert (m + map[id := r]).Keys == m.Keys + {id};
    assert |m.Keys + {id}| == |m.Keys| + 1;
  }

  /** The serial run that a batch amounts to. */
  function EntriesOf(cfg: Config, s: Store, jobs: seq<Job>, n: nat, txnNow: nat): seq<Entry>
    requires n <= |jobs|
  {
    if n == 0 || !BatchSpec(cfg, s, jobs, n - 1, txnNow).Done? then []
    else
      var before := EntriesOf(cfg, s, jobs, n - 1, txnNow);
      if !jobs[n - 1].Job? then before
      else before + [EntryOf(cfg, BatchSpec(cfg, s, jobs, n - 1, txnNow).value.1, jobs[n - 1], txnNow)]
  }

  /** The store and answers of a batch against the serial run of its entries. */
  ghost predicate BatchMatches(cfg: Config, s: Store, es: seq<Entry>, answers: seq<ItemAnswer>, u: Store) {
    && u == s.(tables := u.tables, events := u.events)
    && u.tables == Serial(cfg, s.tables, es) && Agrees(cfg, s.tables, es)
    && |u.tables.revisions| == |s.tables.revisions| + CountWritten(answers)
  }

  lemma BatchStep(cfg: Config, s: Store, es: seq<Entry>, answers: seq<ItemAnswer>, u: Store, e: Entry, a: ItemAnswer, v: Store)
    requires HistoryOk(s.tables) && BatchMatches(cfg, s, es, answers, u)
    requires v == u.(tables := v.tables, events := v.events)
    requires v.tables == WithRows(u.tables, Added(cfg, u.tables, e.op))
    requires e.reply == SerialReply(cfg, u.tables, e.op) && (IsWritten(a) <==> Accepted(e))
    ensures BatchMatches(cfg, s, es + [e], answers + [a], v)
  {
    SerialLast(cfg, s.tables, es, e);
    CountMore(answers, a);
    assert HistoryOk(u.tables) by { SerialKeepsHistory(cfg, s.tables, es); }
    AddedRevisions(cfg, u.tables, e.op);
  }

  lemma CountMore(answers: seq<ItemAnswer>, a: ItemAnswer)
    ensures CountWritten(answers + [a]) == CountWritten(answers) + if IsWritten(a) then 1 else 0
  {
    assert (answers + [a])[..|answers|] == answers;
  }

  lemma JobMatches(cfg: Config, s: Store, es: seq<Entry>, answers: seq<ItemAnswer>, u: Store, job: Job, txnNow: nat)
    requires HistoryOk(s.tables) && BatchMatches(cfg, s, es, answers, u)
    requires JobSpec(cfg, u, job, txnNow).Done?
    ensures var (a, v) := JobSpec(cfg, u, job, txnNow).value;
            BatchMatches(cfg, s, if !job.Job? then es else es + [EntryOf(cfg, u, job, txnNow)], answers + [a], v)
  {
    var (a, v) := JobSpec(cfg, u, job, txnNow).value;
    if job.Rejected? {
      CountMore(answers, a);
    } else {
      JobIsSerialStep(cfg, u, job, txnNow);
      BatchStep(cfg, s, es, answers, u, EntryOf(cfg, u, job, txnNow), a, v);
    }
  }

  /** A batch that completes is a serial run of its items, and every written answer, no other, is
      one new revision. */
  lemma {:induction false} BatchIsSerial(cfg: Config, s: Store, jobs: seq<Job>, n: nat, txnNow: nat)
    requires n <= |jobs| && BatchSpec(cfg, s, jobs, n, txnNow).Done?
    requires HistoryOk(s.tables)
    ensures var (answers, u) := BatchSpec(cfg, s, jobs, n, txnNow).value;
            BatchMatches(cfg, s, EntriesOf(cfg, s, jobs, n, txnNow), answers, u)
  {
    if n == 0 {
      SerialEmpty(cfg, s.tables);
    } else {
      BatchIsSerial(cfg, s, jobs, n - 1, txnNow);
      var (answers, u) := BatchSpec(cfg, s, jobs, n - 1, txnNow).value;
      JobMatches(cfg, s, EntriesOf(cfg, s, jobs, n - 1, txnNow), answers, u, jobs[n - 1], txnNow);
    }
  }

  predicate IsUnchanged(a: ItemAnswer) {
    a.Answered? && a.answer.Unchanged?
  }

  function CountUnchanged(answers: seq<ItemAnswer>): nat {
    if answers == [] then 0
    else CountUnchanged(answers[..|answers| - 1]) + if IsUnchanged(answers[|answers| - 1]) then 1 else 0
  }

  /** The reported `written` also counts the items that changed nothing. */
  lemma {:induction false} WrittenCountsUnchanged(answers: seq<ItemAnswer>)
    ensures CountAnswered(answers) == CountWritten(answers) + CountUnchanged(answers)
  {
    if answers != [] { WrittenCountsUnchanged(answers[..|answers| - 1]); }
  }

  // ---- when items stand alone -------------------------------------------------------

  /** The item fails in the database: on a character that no query takes, before its row is locked or
      in a source lookup; or, after every check of the service, on text that a column does not take
      or on a touch without a partition. */
  predicate Breaks(cfg: Config, s: Store, job: Job, txnNow: nat) {
    || job.Fatal?
    || (job.Job? &&
          var verdict := Decide(s.sources, job.p, RowOf(s.tables, job.p.key));
          verdict == Fail || (verdict == Go && FlushBreaks(cfg, s, job.p, txnNow)))
  }

  lemma WriteCrashesIff(cfg: Config, s: Store, p: Prepared, now: nat, txnNow: nat)
    requires HistoryOk(s.tables)
    ensures var verdict := Decide(s.sources, p, RowOf(s.tables, p.key));
            WritePrepared(cfg, s, p, now, txnNow).0.Crashed?
            <==> verdict == Fail || (verdict == Go && FlushBreaks(cfg, s, p, txnNow))
  {
    NextRevisionIsFree(s.tables, p.key);
    FlushOutcome(cfg, s, p, RowOf(s.tables, p.key), now, txnNow);
  }

  lemma JobCrashesIff(cfg: Config, s: Store, job: Job, txnNow: nat)
    requires HistoryOk(s.tables)
    ensures JobSpec(cfg, s, job, txnNow).Crashed? <==> Breaks(cfg, s, job, txnNow)
    ensures !JobSpec(cfg, s, job, txnNow).Refused?
  {
    if job.Job? { WriteCrashesIff(cfg, s, job.p, job.now, txnNow); }
  }

  /** The source lookups fail at the first key with the character 0, if all before it are known. */
  lemma {:induction false} LookupFailsIff(sources: map<string, bool>, refs: seq<SourceRef>)
    ensures FindSources(sources, refs).Crashed? <==>
            exists i :: 0 <= i < |refs| && !Storable(refs[i].sourceKey)
                        && forall j :: 0 <= j < i ==> FindSource(sources, refs[j].sourceKey).Done?
  {
    if refs != [] {
      var rest := refs[1..];
      LookupFailsIff(sources, rest);
      if FindSources(sources, refs).Crashed? && FindSource(sources, refs[0].sourceKey).Done? {
        var i :| 0 <= i < |rest| && !Storable(rest[i].sourceKey)
                 && forall j :: 0 <= j < i ==> FindSource(sources, rest[j].sourceKey).Done?;
        assert !Storable(refs[i + 1].sourceKey);
        forall j | 0 <= j < i + 1 ensures FindSource(sources, refs[j].sourceKey).Done? {
          assert j > 0 ==> refs[j] == rest[j - 1];
        }
      }
      if i :| 0 <= i < |refs| && !Storable(refs[i].sourceKey)
              && forall j :: 0 <= j < i ==> FindSource(sources, refs[j].sourceKey).Done? {
        if i > 0 {
          assert rest[i - 1] == refs[i];
          forall j | 0 <= j < i - 1 ensures FindSource(sources, rest[j].sourceKey).Done? { assert rest[j] == refs[j + 1]; }
        }
      }
    }
  }

  /** The key or namespace that the request names has the character 0. */
  predicate NamesNul(req: WriteRequest) {
    var key, ns := Given(req.factKey), Given(req.namespace);
    if key.Some? then ns.None? && !Storable(Strip(key.value)) else ns.Some? && !Storable(Strip(ns.value))
  }

  lemma LowerKeepsNul(s: string)
    ensures Storable(Lower(s)) <==> Storable(s)
  {
    if !Storable(s) {
      var i :| 0 <= i < |s| && s[i] == NUL;
      assert Lower(s)[i] == NUL;
    }
    if !Storable(Lower(s)) {
      var i :| 0 <= i < |s| && Lower(s)[i] == NUL;
      assert s[i] == NUL;
    }
  }

  lemma KeyNeverCrashes(cfg: Config, rows: Rows, req: WriteRequest)
    requires NamespacesOk(rows) && KeySpec(cfg, rows, req).Done?
    ensures ValidateKey(rows, KeySpec(cfg, rows, req).value).Crashed? <==> Given(req.namespace).None? && NamesNul(req)
  {
    var key := KeySpec(cfg, rows, req).value;
    if Given(req.namespace).Some? {
      var name := Lower(Strip(Given(req.namespace).value));
      BuiltKeyResolves(cfg.fold, rows, name, req.parts, key);
    } else {
      StripIsTrimmed(Given(req.factKey).value);
      StripTrimmed(key);
    }
  }

  lemma PrepareCrashesIff(cfg: Config, rows: Rows, req: WriteRequest)
    ensures Prepare(cfg, rows, req).Crashed?
            <==> KeySpec(cfg, rows, req).Crashed?
                 || (KeySpec(cfg, rows, req).Done? && ValidateKey(rows, KeySpec(cfg, rows, req).value).Crashed?)
  {
  }

  lemma KeyCrashesIff(cfg: Config, rows: Rows, req: WriteRequest)
    ensures KeySpec(cfg, rows, req).Crashed? <==> Given(req.namespace).Some? && NamesNul(req)
    ensures KeySpec(cfg, rows, req).Refused? && Given(req.namespace).None? ==> !NamesNul(req)
  {
    if Given(req.namespace).Some? { LowerKeepsNul(Strip(Given(req.namespace).value)); }
  }

  /** An item fails before its row is locked exactly when it names a key or namespace with the
      character 0. */
  lemma FatalIff(cfg: Config, rows: Rows, req: WriteRequest, now: nat)
    requires NamespacesOk(rows)
    ensures JobOf(cfg, rows, Call(req, now)).Fatal? <==> NamesNul(req)
  {
    PrepareCrashesIff(cfg, rows, req);
    KeyCrashesIff(cfg, rows, req);
    if KeySpec(cfg, rows, req).Done? { KeyNeverCrashes(cfg, rows, req); }
  }

  /** Item `n` has its turn and fails in the database. */
  predicate BreaksAt(cfg: Config, s: Store, jobs: seq<Job>, n: nat, txnNow: nat)
    requires n < |jobs|
  {
    BatchSpec(cfg, s, jobs, n, txnNow).Done? && Breaks(cfg, BatchSpec(cfg, s, jobs, n, txnNow).value.1, jobs[n], txnNow)
  }

  lemma ItemStandsIff(cfg: Config, s: Store, jobs: seq<Job>, n: nat, txnNow: nat)
    requires n < |jobs| && BatchSpec(cfg, s, jobs, n, txnNow).Done?
    requires HistoryOk(s.tables)
    ensures BatchSpec(cfg, s, jobs, n + 1, txnNow).Done? <==> !BreaksAt(cfg, s, jobs, n, txnNow)
  {
    var u := BatchSpec(cfg, s, jobs, n, txnNow).value.1;
    BatchIsSerial(cfg, s, jobs, n, txnNow);
    SerialKeepsHistory(cfg, s.tables, EntriesOf(cfg, s, jobs, n, txnNow));
    JobCrashesIff(cfg, u, jobs[n], txnNow);
  }

  /** "Each item stands alone" holds exactly when no item, at its turn, fails in the database. One
      such item loses the whole batch, including the items that were already accepted. */
  lemma {:induction false} ItemsStandAloneIff(cfg: Config, s: Store, jobs: seq<Job>, n: nat, txnNow: nat)
    requires n <= |jobs|
    requires HistoryOk(s.tables)
    ensures BatchSpec(cfg, s, jobs, n, txnNow).Done? <==> forall i :: 0 <= i < n ==> !BreaksAt(cfg, s, jobs, i, txnNow)
    ensures !BatchSpec(cfg, s, jobs, n, txnNow).Done? ==> BatchSpec(cfg, s, jobs, n, txnNow) == Crashed
  {
    if n > 0 {
      ItemsStandAloneIff(cfg, s, jobs, n - 1, txnNow);
      if BatchSpec(cfg, s, jobs, n - 1, txnNow).Done? {
        ItemStandsIff(cfg, s, jobs, n - 1, txnNow);
      } else {
        CrashLasts(cfg, s, jobs, n - 1, n, txnNow);
      }
    }
  }

  // ---- the condition before the call ------------------------------------------------

  /** No two items are for the same fact. */
  predicate DistinctKeys(jobs: seq<Job>) {
    forall i, j :: 0 <= i < j < |jobs| && jobs[i].Job? && jobs[j].Job? ==> jobs[i].p.key != jobs[j].p.key
  }

  lemma {:induction false} EntriesHaveJobKeys(cfg: Config, s: Store, jobs: seq<Job>, n: nat, txnNow: nat, key: string)
    requires n <= |jobs| && key in Keys(EntriesOf(cfg, s, jobs, n, txnNow))
    ensures exists i :: 0 <= i < n && jobs[i].Job? && jobs[i].p.key == key
  {
    if n > 0 && BatchSpec(cfg, s, jobs, n - 1, txnNow).Done? {
      var before := EntriesOf(cfg, s, jobs, n - 1, txnNow);
      var es := EntriesOf(cfg, s, jobs, n, txnNow);
      var i :| 0 <= i < |es| && Key(es[i]) == key;
      if i < |before| {
        assert Key(before[i]) == key;
        EntriesHaveJobKeys(cfg, s, jobs, n - 1, txnNow, key);
      } else {
        assert jobs[n - 1].Job? && jobs[n - 1].p.key == key;
      }
    }
  }

  lemma OwnRowUntouched(cfg: Config, s: Store, jobs: seq<Job>, n: nat, txnNow: nat)
    requires n < |jobs| && jobs[n].Job? && BatchSpec(cfg, s, jobs, n, txnNow).Done?
    requires HistoryOk(s.tables) && DistinctKeys(jobs)
    ensures RowOf(BatchSpec(cfg, s, jobs, n, txnNow).value.1.tables, jobs[n].p.key) == RowOf(s.tables, jobs[n].p.key)
  {
    BatchIsSerial(cfg, s, jobs, n, txnNow);
    var key, es := jobs[n].p.key, EntriesOf(cfg, s, jobs, n, txnNow);
    if key in Keys(es) {
      EntriesHaveJobKeys(cfg, s, jobs, n, txnNow, key);
      assert false;
    }
    OtherKeysStay(cfg, s.tables, es, key);
  }

  lemma OtherKeysStay(cfg: Config, t: Tables, es: seq<Entry>, key: string)
    requires key !in Keys(es)
    ensures RowOf(Serial(cfg, t, es), key) == RowOf(t, key)
  {
    SerialKeys(cfg, t, es);
  }

  lemma PreparedTouchesNothing(cfg: Config, s: Store, p: Prepared, now: nat, txnNow: nat)
    requires MonthOf(txnNow) !in s.partitions
    ensures WritePrepared(cfg, s, p, now, txnNow).1.events == s.events
  {
    TouchOutcome(cfg, s.events, s.partitions, p.refs, |p.refs|, txnNow);
  }

  lemma JobTouchesNothing(cfg: Config, s: Store, job: Job, txnNow: nat)
    requires MonthOf(txnNow) !in s.partitions && JobSpec(cfg, s, job, txnNow).Done?
    ensures JobSpec(cfg, s, job, txnNow).value.1.events == s.events
  {
    if job.Job? { PreparedTouchesNothing(cfg, s, job.p, job.now, txnNow); }
  }

  lemma {:induction false} BatchTouchesNothing(cfg: Config, s: Store, jobs: seq<Job>, n: nat, txnNow: nat)
    requires n <= |jobs| && BatchSpec(cfg, s, jobs, n, txnNow).Done? && HistoryOk(s.tables)
    requires MonthOf(txnNow) !in s.partitions
    ensures BatchSpec(cfg, s, jobs, n, txnNow).value.1.events == s.events
  {
    if n > 0 {
      BatchTouchesNothing(cfg, s, jobs, n - 1, txnNow);
      BatchIsSerial(cfg, s, jobs, n - 1, txnNow);
      JobTouchesNothing(cfg, BatchSpec(cfg, s, jobs, n - 1, txnNow).value.1, jobs[n - 1], txnNow);
    }
  }

  lemma BreaksAnyway(cfg: Config, s: Store, u: Store, job: Job, txnNow: nat)
    requires u == s.(tables := u.tables, events := u.events)
    requires job.Job? ==> RowOf(u.tables, job.p.key) == RowOf(s.tables, job.p.key)
    requires MonthOf(txnNow) !in s.partitions ==> u.events == s.events
    ensures Breaks(cfg, u, job, txnNow) <==> Breaks(cfg, s, job, txnNow)
  {
  }

  lemma TurnDoesNotMatter(cfg: Config, s: Store, jobs: seq<Job>, n: nat, txnNow: nat)
    requires n < |jobs| && BatchSpec(cfg, s, jobs, n, txnNow).Done?
    requires HistoryOk(s.tables) && DistinctKeys(jobs)
    ensures BreaksAt(cfg, s, jobs, n, txnNow) <==> Breaks(cfg, s, jobs[n], txnNow)
  {
    var u := BatchSpec(cfg, s, jobs, n, txnNow).value.1;
    BatchIsSerial(cfg, s, jobs, n, txnNow);
    if jobs[n].Job? { OwnRowUntouched(cfg, s, jobs, n, txnNow); }
    if MonthOf(txnNow) !in s.partitions { BatchTouchesNothing(cfg, s, jobs, n, txnNow); }
    BreaksAnyway(cfg, s, u, jobs[n], txnNow);
  }

  /** For items of different facts the condition can be read off the store before the call: the batch
      completes exactly when none of them fails in the database on its own. */
  lemma {:induction false} BatchCompletesIff(cfg: Config, s: Store, jobs: seq<Job>, n: nat, txnNow: nat)
    requires n <= |jobs| && HistoryOk(s.tables) && DistinctKeys(jobs)
    ensures BatchSpec(cfg, s, jobs, n, txnNow).Done? <==> forall i :: 0 <= i < n ==> !Breaks(cfg, s, jobs[i], txnNow)
  {
    if n > 0 {
      BatchCompletesIff(cfg, s, jobs, n - 1, txnNow);
      if BatchSpec(cfg, s, jobs, n - 1, txnNow).Done? {
        ItemStandsIff(cfg, s, jobs, n - 1, txnNow);
        TurnDoesNotMatter(cfg, s, jobs, n - 1, txnNow);
      } else {
        CrashLasts(cfg, s, jobs, n - 1, n, txnNow);
      }
    }
  }
}
