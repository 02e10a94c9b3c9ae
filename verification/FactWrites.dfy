/** `write_fact` and `write_facts` as one session runs them, flush by flush. */
module FactWrites {
  import opened Wrappers
  import opened Namespaces
  import opened Database
  import opened RawEvents
  import opened Facts

  /** The touches of the first `n` references. A bad id refuses the write, a touch can crash. */
  function TouchFirst(cfg: Config, events: Events, partitions: set<nat>, refs: seq<SourceRef>, n: nat, now: nat): Outcome<Events>
    requires n <= |refs|
  {
    if n == 0 then Done(events)
    else
      match TouchFirst(cfg, events, partitions, refs, n - 1, now)
      case Done(before) =>
        if BadUuid(cfg, refs[n - 1]) then Refused(Invalid)
        else if EventOf(cfg, refs[n - 1]).None? then Done(before)
        else TouchSpec(cfg, before, partitions, EventOf(cfg, refs[n - 1]).value, now)
      case other => other
  }

  /** The row, its new snapshot, and the sources, each flushed in turn. */
  function FlushSpec(cfg: Config, s: Store, p: Prepared, row: Option<FactRow>, now: nat, txnNow: nat): Outcome<Store> {
    if !RowFits(p) || RevisionIdOf(p, row) in s.tables.revisions || !RevisionFits(p) then Crashed
    else
      match TouchFirst(cfg, s.events, s.partitions, p.refs, |p.refs|, txnNow)
      case Refused(e) => Refused(e)
      case Crashed => Crashed
      case Done(events) =>
        if !CitationsFit(p.refs) then Crashed
        else Done(s.(tables := WithRows(s.tables, Delta(cfg, p, row, now)), events := events))
  }

  /** A prepared write as one transaction: everything, or nothing. */
  function WritePrepared(cfg: Config, s: Store, p: Prepared, now: nat, txnNow: nat): (Outcome<WriteAnswer>, Store) {
    var row := RowOf(s.tables, p.key);
    match Decide(s.sources, p, row)
    case Refuse(_) => (Reply(cfg, s.sources, p, row, now), s)
    case Fail => (Crashed, s)
    case Same => (Reply(cfg, s.sources, p, row, now), s)
    case Go =>
      match FlushSpec(cfg, s, p, row, now, txnNow)
      case Refused(e) => (Refused(e), s)
      case Crashed => (Crashed, s)
      case Done(u) => (Done(Wrote(p.change, View(p.key, p.namespace, NewRow(p, row, now)))), u)
  }

  function WriteSpec(cfg: Config, s: Store, req: WriteRequest, now: nat, txnNow: nat): (Outcome<WriteAnswer>, Store) {
    match Prepare(cfg, s.namespaces, req)
    case Refused(e) => (Refused(e), s)
    case Crashed => (Crashed, s)
    case Done(p) => WritePrepared(cfg, s, p, now, txnNow)
  }

  lemma {:induction false} TouchFailureLasts(cfg: Config, events: Events, partitions: set<nat>, refs: seq<SourceRef>, i: nat, n: nat, now: nat)
    requires i <= n <= |refs|
    requires !TouchFirst(cfg, events, partitions, refs, i, now).Done?
    ensures TouchFirst(cfg, events, partitions, refs, n, now) == TouchFirst(cfg, events, partitions, refs, i, now)
  {
    if i < n { TouchFailureLasts(cfg, events, partitions, refs, i, n - 1, now); }
  }

  method PrepareWrite(session: Session, cfg: Config, req: WriteRequest) returns (r: Outcome<Prepared>)
    requires NamespacesOk(session.db.namespaces)
    ensures r == Prepare(cfg, session.db.namespaces, req)
  {
    var key := ResolveKey(session, cfg, req);
    if key.Refused? { return Refused(key.error); }
    if key.Crashed? { return Crashed; }
    var ns := ValidateFactKey(session, key.value);
    if ns.Refused? { return Refused(ns.error); }
    if ns.Crashed? { return Crashed; }
    var rows := session.db.namespaces;
    r := AsOutcome(PrepareFields(cfg, req, key.value, ns.value,
                                 if ns.value in rows then rows[ns.value].defaultKind else Fact));
  }

  /** The loop over the sources of a flushed revision. */
  method CiteSources(session: Session, cfg: Config, id: RevisionId, refs: seq<SourceRef>, txnNow: nat) returns (r: Outcome<()>)
    modifies session
    ensures match TouchFirst(cfg, old(session.db.events), old(session.db.partitions), refs, |refs|, txnNow)
            case Refused(e) => r == Refused(e)
            case Crashed => r == Crashed
            case Done(events) =>
              && r == Done(())
              && session.db == old(session.db).(
                   events := events,
                   tables := old(session.db.tables).(citations := old(session.db.tables.citations) + Citations(cfg, id, refs)))
  {
    var s := session.db;
    var cited := Citations(cfg, id, refs);
    assert s.tables.citations + cited[..0] == s.tables.citations;
    for i := 0 to |refs|
      invariant TouchFirst(cfg, s.events, s.partitions, refs, i, txnNow) == Done(session.db.events)
      invariant session.db == s.(events := session.db.events, tables := s.tables.(citations := s.tables.citations + cited[..i]))
    {
      var ref := refs[i];
      if BadUuid(cfg, ref) {
        TouchFailureLasts(cfg, s.events, s.partitions, refs, i + 1, |refs|, txnNow);
        return Refused(Invalid);
      }
      assert cited[..i + 1] == cited[..i] + [CitationOf(cfg, id, ref)];
      var tables := session.db.tables;
      session.db := session.db.(tables := tables.(citations := tables.citations + [CitationOf(cfg, id, ref)]));
      if EventOf(cfg, ref).Some? {
        var touched := TouchRawEvent(session, cfg, EventOf(cfg, ref).value, txnNow);
        if touched.Crashed? {
          TouchFailureLasts(cfg, s.events, s.partitions, refs, i + 1, |refs|, txnNow);
          return Crashed;
        }
      }
    }
    assert cited[..|refs|] == cited;
    r := Done(());
  }

  /** A write that is refused after its rows were flushed leaves them in the session: only the
      caller's rollback takes them out. */
  method WriteFact(session: Session, cfg: Config, req: WriteRequest, now: nat, txnNow: nat) returns (r: Outcome<WriteAnswer>)
    requires NamespacesOk(session.db.namespaces)
    modifies session
    ensures r == WriteSpec(cfg, old(session.db), req, now, txnNow).0
    ensures r.Done? ==> session.db == WriteSpec(cfg, old(session.db), req, now, txnNow).1
  {
    var prepared := PrepareWrite(session, cfg, req);
    if prepared.Refused? { return Refused(prepared.error); }
    if prepared.Crashed? { return Crashed; }
    r := WriteChecked(session, cfg, prepared.value, now, txnNow);
  }

  method WriteChecked(session: Session, cfg: Config, p: Prepared, now: nat, txnNow: nat) returns (r: Outcome<WriteAnswer>)
    modifies session
    ensures r == WritePrepared(cfg, old(session.db), p, now, txnNow).0
    ensures r.Done? ==> session.db == WritePrepared(cfg, old(session.db), p, now, txnNow).1
  {
    var found := RowOf(session.db.tables, p.key);
    var verdict := Decide(session.db.sources, p, found);
    if verdict.Refuse? { return Refused(verdict.error); }
    if verdict.Fail? { return Crashed; }
    if verdict.Same? { return Done(Unchanged(View(p.key, p.namespace, found.value))); }
    var flushed := FlushWrite(session, cfg, p, found, now, txnNow);
    match flushed {
      case Refused(e) => return Refused(e);
      case Crashed => return Crashed;
      case Done(fact) => return Done(Wrote(p.change, View(p.key, p.namespace, fact)));
    }
  }

  method FlushWrite(session: Session, cfg: Config, p: Prepared, found: Option<FactRow>, now: nat, txnNow: nat)
    returns (r: Outcome<FactRow>)
    requires p.kind.Some? ==> ParseKind(p.kind.value).Some?
    modifies session
    ensures match FlushSpec(cfg, old(session.db), p, found, now, txnNow)
            case Refused(e) => r == Refused(e)
            case Crashed => r == Crashed
            case Done(s) => r == Done(NewRow(p, found, now)) && session.db == s
  {
    var tables := session.db.tables;
    var fact := if found.Some? then found.value else FactRow(p.namespace, p.defaultKind, 0, p.value, now, now);
    if p.kind.Some? { fact := fact.(kind := ParseKind(p.kind.value).value); }
    fact := fact.(revision := Current(found) + 1, value := p.value, updatedAt := now);
    assert fact == NewRow(p, found, now);
    if !RowFits(p) { return Crashed; }
    session.db := session.db.(tables := tables.(facts := tables.facts[p.key := fact.(value := StoredValue(fact.value))]));
    var id := RevisionId(p.key, fact.revision);
    if id in tables.revisions || !RevisionFits(p) { return Crashed; }
    session.db := session.db.(tables := session.db.tables.(revisions := tables.revisions[id := NewRevision(p, now)]));
    var cited := CiteSources(session, cfg, id, p.refs, txnNow);
    if cited.Refused? { return Refused(cited.error); }
    if cited.Crashed? || !CitationsFit(p.refs) { return Crashed; }
    FlushedRows(cfg, tables, p, found, now);
    r := Done(fact);
  }

  lemma FlushedRows(cfg: Config, t: Tables, p: Prepared, row: Option<FactRow>, now: nat)
    ensures var id := RevisionIdOf(p, row);
            Tables(t.facts[p.key := StoredRow(p, row, now)], t.revisions[id := NewRevision(p, now)],
                   t.citations + Citations(cfg, id, p.refs))
            == WithRows(t, Delta(cfg, p, row, now))
  {
  }

  // ---- batches ----------------------------------------------------------------------

  /** An item of a batch: arguments that are no `write_fact` call, or a call and its clock. */
  datatype Item = Malformed | Call(req: WriteRequest, now: nat)

  datatype ItemAnswer = Answered(answer: WriteAnswer) | Error(error: Refusal)

  datatype BatchAnswer = BatchAnswer(count: nat, written: nat, items: seq<ItemAnswer>)

  const MAX_BATCH: nat := 10

  /** An item after the checks that need no lock: refused already, failed in the database already, or
      a write to make. */
  datatype Job = Rejected(error: Refusal) | Fatal | Job(p: Prepared, now: nat)

  function JobOf(cfg: Config, rows: Rows, item: Item): Job {
    match item
    case Malformed => Rejected(Invalid)
    case Call(req, now) =>
      match Prepare(cfg, rows, req)
      case Refused(e) => Rejected(e)
      case Crashed => Fatal
      case Done(p) => Job(p, now)
  }

  function Jobs(cfg: Config, rows: Rows, items: seq<Item>): (jobs: seq<Job>)
    ensures |jobs| == |items|
  {
    seq(|items|, i requires 0 <= i < |items| => JobOf(cfg, rows, items[i]))
  }

  /** One item on its own: its answer, and the store with a refused item left out. */
  function JobSpec(cfg: Config, s: Store, job: Job, txnNow: nat): Outcome<(ItemAnswer, Store)> {
    match job
    case Rejected(e) => Done((Error(e), s))
    case Fatal => Crashed
    case Job(p, now) =>
      match WritePrepared(cfg, s, p, now, txnNow)
      case (Done(a), u) => Done((Answered(a), u))
      case (Refused(e), _) => Done((Error(e), s))
      case (Crashed, _) => Crashed
  }

  /** The first `n` items, one after another. */
  function BatchSpec(cfg: Config, s: Store, jobs: seq<Job>, n: nat, txnNow: nat): Outcome<(seq<ItemAnswer>, Store)>
    requires n <= |jobs|
  {
    if n == 0 then Done(([], s))
    else
      match BatchSpec(cfg, s, jobs, n - 1, txnNow)
      case Done((answers, u)) =>
        (match JobSpec(cfg, u, jobs[n - 1], txnNow)
         case Done((answer, v)) => Done((answers + [answer], v))
         case _ => Crashed)
      case _ => Crashed
  }

  /** The reported number of written items: all whose result is no error. */
  function CountAnswered(answers: seq<ItemAnswer>): nat {
    if answers == [] then 0
    else CountAnswered(answers[..|answers| - 1]) + if answers[|answers| - 1].Answered? then 1 else 0
  }

  lemma {:induction false} CrashLasts(cfg: Config, s: Store, jobs: seq<Job>, i: nat, n: nat, txnNow: nat)
    requires 1 <= i <= n <= |jobs|
    requires !BatchSpec(cfg, s, jobs, i, txnNow).Done?
    ensures BatchSpec(cfg, s, jobs, n, txnNow) == Crashed
  {
    if i < n { CrashLasts(cfg, s, jobs, i, n - 1, txnNow); }
  }

  lemma PreparedKeepsNamespaces(cfg: Config, s: Store, p: Prepared, now: nat, txnNow: nat)
    ensures var u := WritePrepared(cfg, s, p, now, txnNow).1;
            u == s.(tables := u.tables, events := u.events)
  {
  }

  /** A call's outcome is its job's outcome. */
  lemma CallIsJob(cfg: Config, s: Store, req: WriteRequest, now: nat, txnNow: nat)
    ensures JobSpec(cfg, s, JobOf(cfg, s.namespaces, Call(req, now)), txnNow)
            == match WriteSpec(cfg, s, req, now, txnNow)
               case (Done(a), u) => Done((Answered(a), u))
               case (Refused(e), _) => Done((Error(e), s))
               case (Crashed, _) => Crashed
    ensures WriteSpec(cfg, s, req, now, txnNow).1.namespaces == s.namespaces
  {
    var prepared := Prepare(cfg, s.namespaces, req);
    if prepared.Done? { PreparedKeepsNamespaces(cfg, s, prepared.value, now, txnNow); }
  }

  lemma BatchMore(cfg: Config, s: Store, jobs: seq<Job>, i: nat, txnNow: nat, results: seq<ItemAnswer>, answer: ItemAnswer)
    requires i < |jobs| && BatchSpec(cfg, s, jobs, i, txnNow).Done? && BatchSpec(cfg, s, jobs, i, txnNow).value.0 == results
    ensures var job := JobSpec(cfg, BatchSpec(cfg, s, jobs, i, txnNow).value.1, jobs[i], txnNow);
            job.Done? && job.value.0 == answer ==>
              BatchSpec(cfg, s, jobs, i + 1, txnNow) == Done((results + [answer], job.value.1))
    ensures CountAnswered(results + [answer]) == CountAnswered(results) + if answer.Answered? then 1 else 0
  {
    assert (results + [answer])[..|results|] == results;
  }

  /** Each item runs inside a savepoint. A refused item is rolled back alone; a database error
      ends the whole call. */
  method WriteFacts(session: Session, cfg: Config, items: seq<Item>, txnNow: nat) returns (r: Outcome<BatchAnswer>)
    requires NamespacesOk(session.db.namespaces)
    modifies session
    ensures !(1 <= |items| <= MAX_BATCH) ==> r == Refused(Invalid) && session.db == old(session.db)
    ensures 1 <= |items| <= MAX_BATCH ==>
              match BatchSpec(cfg, old(session.db), Jobs(cfg, old(session.db).namespaces, items), |items|, txnNow)
              case Done((answers, s)) =>
                && r == Done(BatchAnswer(|items|, CountAnswered(answers), answers))
                && |answers| == |items|
                && session.db == s
              case _ => r == Crashed
  {
    if |items| == 0 || |items| > MAX_BATCH { return Refused(Invalid); }
    ghost var s, jobs := session.db, Jobs(cfg, session.db.namespaces, items);
    var results, written: nat := [], 0;
    for i := 0 to |items|
      invariant BatchSpec(cfg, s, jobs, i, txnNow) == Done((results, session.db))
      invariant session.db.namespaces == s.namespaces
      invariant |results| == i && written == CountAnswered(results)
    {
      var answer := WriteItem(session, cfg, items[i], txnNow);
      if answer.Crashed? {
        CrashLasts(cfg, s, jobs, i + 1, |items|, txnNow);
        return Crashed;
      }
      BatchMore(cfg, s, jobs, i, txnNow, results, answer.value);
      results := results + [answer.value];
      if answer.value.Answered? { written := written + 1; }
    }
    r := Done(BatchAnswer(|results|, written, results));
  }

  /** One turn of the loop: the savepoint around one call. */
  method WriteItem(session: Session, cfg: Config, item: Item, txnNow: nat) returns (r: Outcome<ItemAnswer>)
    requires NamespacesOk(session.db.namespaces)
    modifies session
    ensures match JobSpec(cfg, old(session.db), JobOf(cfg, old(session.db).namespaces, item), txnNow)
            case Done((answer, s)) => r == Done(answer) && session.db == s
            case _ => r == Crashed
    ensures !r.Crashed? ==> session.db.namespaces == old(session.db.namespaces)
  {
    if item.Malformed? { return Done(Error(Invalid)); }
    var savepoint := session.db;
    CallIsJob(cfg, savepoint, item.req, item.now, txnNow);
    var outcome := WriteFact(session, cfg, item.req, item.now, txnNow);
    match outcome {
      case Crashed => return Crashed;
      case Refused(e) =>
        session.RollbackTo(savepoint);
        return Done(Error(e));
      case Done(a) =>
        return Done(Answered(a));
    }
  }
}
