/** What the concurrent protocol lets happen: which step is possible when, and that a write that
    nobody is in the way of runs as it would alone. */
module ProtocolRuns {
  import opened Wrappers
  import opened Database
  import opened Facts
  import opened SerialWrites
  import opened FactProtocol
  import opened FactWrites
  import opened BatchLaws

  lemma OneStep(cfg: Config, s: State, step: Step)
    ensures Run(cfg, s, [step]) == Do(cfg, s, step)
  {
    assert [step][..0] == [];
  }

  lemma RunMore(cfg: Config, s: State, steps: seq<Step>, step: Step)
    ensures Run(cfg, s, steps + [step]) == if Run(cfg, s, steps).Some? then Do(cfg, Run(cfg, s, steps).value, step) else None
  {
    assert (steps + [step])[..|steps|] == steps;
  }

  lemma {:induction false} RunAppend(cfg: Config, s: State, a: seq<Step>, b: seq<Step>)
    ensures Run(cfg, s, a + b) == if Run(cfg, s, a).Some? then Run(cfg, Run(cfg, s, a).value, b) else None
  {
    if b == [] {
      assert a + b == a;
    } else {
      assert a + b == (a + b[..|b| - 1]) + [b[|b| - 1]];
      RunAppend(cfg, s, a, b[..|b| - 1]);
      RunMore(cfg, s, a + b[..|b| - 1], b[|b| - 1]);
    }
  }

  // ---- locks and rows ---------------------------------------------------------------

  predicate HasRow(committed: Tables, view: Tables, key: string) {
    key in committed.facts || key in view.facts
  }

  /** A transaction owns the keys of stored rows only: committed ones and its own inserts. */
  ghost predicate TxnRows(committed: Tables, t: Txn) {
    && (forall key :: key in t.locks ==> HasRow(committed, t.view, key))
    && match t.phase
       case Idle => true
       case Checked(op, row, took) => if row.Some? then HasRow(committed, t.view, op.p.key) else op.p.key !in t.locks
       case Flushed(op, row, took, saved) =>
         t.view.facts.Keys == saved.facts.Keys + {op.p.key} && (!took ==> HasRow(committed, saved, op.p.key))
  }

  ghost predicate LocksHaveRows(s: State) {
    forall c :: c in s.txns ==> TxnRows(s.committed, s.txns[c])
  }

  /** No step but a commit changes more than its own transaction and the log. */
  lemma StepIsOwn(cfg: Config, s: State, step: Step)
    requires Do(cfg, s, step).Some?
    ensures var u := Do(cfg, s, step).value;
            && (!step.Commit? ==> u.committed == s.committed)
            && s.committed.facts.Keys <= u.committed.facts.Keys
            && forall d :: d != step.c ==> (d in u.txns <==> d in s.txns) && (d in s.txns ==> u.txns[d] == s.txns[d])
  {
  }

  lemma OwnTxnRows(cfg: Config, s: State, step: Step)
    requires Do(cfg, s, step).Some? && !step.Commit?
    requires step.c in s.txns ==> TxnRows(s.committed, s.txns[step.c])
    ensures var u := Do(cfg, s, step).value; step.c in u.txns ==> TxnRows(u.committed, u.txns[step.c])
  {
    match step
    case Check(c, op) => CheckTxnRows(cfg, s, c, op);
    case Record(c) => RecordTxnRows(cfg, s, c);
    case _ =>
  }

  lemma CheckTxnRows(cfg: Config, s: State, c: Client, op: Op)
    requires DoCheck(cfg, s, c, op).Some? && TxnRows(s.committed, s.txns[c])
    ensures TxnRows(s.committed, DoCheck(cfg, s, c, op).value.txns[c])
  {
    var row := RowOf(WithRows(s.committed, s.txns[c].view), op.p.key);
    if Decide(op.sources, op.p, row) == Verdict.Same { SameHasRow(op, row); }
  }

  lemma RecordTxnRows(cfg: Config, s: State, c: Client)
    requires DoRecord(cfg, s, c).Some? && TxnRows(s.committed, s.txns[c])
    ensures TxnRows(s.committed, DoRecord(cfg, s, c).value.txns[c])
  {
  }

  lemma StepKeepsRows(cfg: Config, s: State, step: Step)
    requires LocksHaveRows(s) && Do(cfg, s, step).Some?
    ensures LocksHaveRows(Do(cfg, s, step).value)
  {
    StepIsOwn(cfg, s, step);
    if !step.Commit? { OwnTxnRows(cfg, s, step); }
  }

  lemma {:induction false} RunKeepsRows(cfg: Config, init: Tables, steps: seq<Step>)
    requires Run(cfg, Start(init), steps).Some?
    ensures LocksHaveRows(Run(cfg, Start(init), steps).value)
  {
    if steps != [] {
      RunKeepsRows(cfg, init, steps[..|steps| - 1]);
      StepKeepsRows(cfg, Run(cfg, Start(init), steps[..|steps| - 1]).value, steps[|steps| - 1]);
    }
  }

  // ---- when a step is possible ------------------------------------------------------

  /** What a transaction sees of a fact: its own uncommitted row, or the committed one. */
  function Seen(s: State, c: Client, key: string): Option<FactRow>
    requires c in s.txns
  {
    if key in s.txns[c].view.facts then Some(s.txns[c].view.facts[key])
    else if key in s.committed.facts then Some(s.committed.facts[key])
    else None
  }

  lemma OwnLockIsFree(cfg: Config, init: Tables, s: State, c: Client, key: string)
    requires Inv(cfg, init, s) && c in s.txns && key in s.txns[c].locks
    ensures Free(s, c, key)
  {
    forall d | d in s.txns && d != c ensures key !in s.txns[d].locks { assert s.txns[c].locks !! s.txns[d].locks; }
  }

  lemma CheckIff(cfg: Config, s: State, c: Client, op: Op)
    requires c in s.txns && s.txns[c].phase == Idle
    ensures Do(cfg, s, Check(c, op)).Some?
            <==>
            && (op.p.key in s.committed.facts && op.p.key !in s.txns[c].locks ==> Free(s, c, op.p.key))
            && !Decide(op.sources, op.p, Seen(s, c, op.p.key)).Fail?
  {
    assert Seen(s, c, op.p.key) == RowOf(WithRows(s.committed, s.txns[c].view), op.p.key);
  }

  /** In every reachable state, an idle client's check is possible exactly when the row is not locked
      by another transaction and the lookups of the sources do not fail. A row that is not there blocks
      nobody. */
  lemma CheckPossibleIff(cfg: Config, init: Tables, steps: seq<Step>, s: State, c: Client, op: Op)
    requires Run(cfg, Start(init), steps) == Some(s)
    requires c in s.txns && s.txns[c].phase == Idle
    ensures Do(cfg, s, Check(c, op)).Some?
            <==>
            && (op.p.key in s.committed.facts ==> Free(s, c, op.p.key))
            && !Decide(op.sources, op.p, Seen(s, c, op.p.key)).Fail?
  {
    RunKeepsInv(cfg, init, steps);
    CheckIff(cfg, s, c, op);
    if op.p.key in s.txns[c].locks { OwnLockIsFree(cfg, init, s, c, op.p.key); }
  }

  /** Between check and flush, the write owns its key exactly when it saw a row. */
  lemma CheckedRow(cfg: Config, committed: Tables, t: Txn)
    requires TxnOk(cfg, committed, t) && TxnRows(committed, t) && t.phase.Checked?
    ensures t.phase.row.Some? <==> t.phase.op.p.key in t.locks
    ensures t.phase.row.Some? ==> HasRow(committed, t.view, t.phase.op.p.key)
    ensures t.phase.row.None? ==> t.phase.op.p.key !in t.view.facts
  {
    assert PhaseOk(cfg, committed, t);
  }

  lemma FlushIff(cfg: Config, s: State, c: Client)
    requires c in s.txns && s.txns[c].phase.Checked?
    ensures var t, p := s.txns[c], s.txns[c].phase.op.p;
            Do(cfg, s, Flush(c)).Some? <==> RowFits(p) && (t.phase.row.Some? || (Free(s, c, p.key) && p.key !in s.committed.facts))
  {
  }

  /** A row that has been checked can be written exactly when the columns take it and, for a new fact,
      no other transaction has inserted the key, committed or not. */
  lemma FlushPossibleIff(cfg: Config, init: Tables, steps: seq<Step>, s: State, c: Client)
    requires Run(cfg, Start(init), steps) == Some(s)
    requires c in s.txns && s.txns[c].phase.Checked?
    ensures var p := s.txns[c].phase.op.p;
            Do(cfg, s, Flush(c)).Some?
            <==> RowFits(p) && if Seen(s, c, p.key).Some? then p.key in s.txns[c].locks else Free(s, c, p.key)
  {
    RunKeepsInv(cfg, init, steps);
    RunKeepsRows(cfg, init, steps);
    CheckedRow(cfg, s.committed, s.txns[c]);
    FlushIff(cfg, s, c);
  }

  lemma RecordIff(cfg: Config, s: State, c: Client)
    requires c in s.txns && s.txns[c].phase.Flushed?
    requires RevisionIdOf(s.txns[c].phase.op.p, s.txns[c].phase.row) !in WithRows(s.committed, s.txns[c].view).revisions
    ensures var p := s.txns[c].phase.op.p;
            Do(cfg, s, Record(c)).Some? <==> RevisionFits(p) && (AnyBadUuid(cfg, p.refs) || CitationsFit(p.refs))
  {
  }

  /** After its row, a revision can be written exactly when the columns take its text and, unless an
      event id is unreadable, its citations: its number is always free. */
  lemma RecordPossibleIff(cfg: Config, init: Tables, steps: seq<Step>, s: State, c: Client)
    requires HistoryOk(init) && Run(cfg, Start(init), steps) == Some(s)
    requires c in s.txns && s.txns[c].phase.Flushed?
    ensures var p := s.txns[c].phase.op.p;
            Do(cfg, s, Record(c)).Some? <==> RevisionFits(p) && (AnyBadUuid(cfg, p.refs) || CitationsFit(p.refs))
  {
    RunKeepsInv(cfg, init, steps);
    ReachableHistoryOk(cfg, init, steps);
    FlushedIdIsFree(cfg, init, s, c);
    RecordIff(cfg, s, c);
  }

  /** A transaction can begin when it is not open, commit between its writes, and abort at any time. */
  lemma OtherStepsPossibleIff(cfg: Config, s: State, c: Client)
    ensures Do(cfg, s, Begin(c)).Some? <==> c !in s.txns
    ensures Do(cfg, s, Commit(c)).Some? <==> c in s.txns && s.txns[c].phase == Idle
    ensures Do(cfg, s, Abort(c)).Some? <==> c in s.txns
  {
  }

  /** Whoever commits or aborts is gone with all its locks, and an abort leaves nothing else behind. */
  lemma EndReleases(cfg: Config, s: State, step: Step)
    requires Do(cfg, s, step).Some? && (step.Commit? || step.Abort?)
    ensures var u := Do(cfg, s, step).value;
            && u.txns.Keys == s.txns.Keys - {step.c}
            && (forall d :: d in u.txns ==> u.txns[d] == s.txns[d])
            && (step.Abort? ==> u.committed == s.committed && u.log == s.log)
            && (step.Commit? ==> u.log == s.log + s.txns[step.c].pending)
  {
  }

  // ---- a write that nobody is in the way of -----------------------------------------

  /** The write's own steps. */
  function OwnSteps(c: Client, op: Op, flushes: bool): seq<Step> {
    if flushes then [Begin(c), Check(c, op), Flush(c), Record(c), Commit(c)] else [Begin(c), Check(c, op), Commit(c)]
  }

  lemma ThreeSteps(cfg: Config, s: State, a: Step, b: Step, d: Step, s1: State, s2: State)
    requires Do(cfg, s, a) == Some(s1) && Do(cfg, s1, b) == Some(s2)
    ensures Run(cfg, s, [a, b, d]) == Do(cfg, s2, d)
  {
    OneStep(cfg, s, a);
    RunMore(cfg, s, [a], b);
    assert [a] + [b] == [a, b];
    RunMore(cfg, s, [a, b], d);
    assert [a, b] + [d] == [a, b, d];
  }

  lemma FiveSteps(cfg: Config, s: State, a: Step, b: Step, d: Step, e: Step, f: Step, s3: State, s4: State)
    requires Run(cfg, s, [a, b, d]) == Some(s3) && Do(cfg, s3, e) == Some(s4)
    ensures Run(cfg, s, [a, b, d, e, f]) == Do(cfg, s4, f)
  {
    RunMore(cfg, s, [a, b, d], e);
    assert [a, b, d] + [e] == [a, b, d, e];
    RunMore(cfg, s, [a, b, d, e], f);
    assert [a, b, d, e] + [f] == [a, b, d, e, f];
  }

  /** The other transactions and the committed tables of `s`, with this transaction and this log. */
  function With(s: State, c: Client, t: Txn, log: seq<Entry>): State {
    State(s.committed, s.txns[c := t], log)
  }

  lemma PutWith(s: State, c: Client, t: Txn, u: Txn, log: seq<Entry>)
    ensures Put(With(s, c, t, log), c, u) == With(s, c, u, log)
  {
    assert s.txns[c := t][c := u] == s.txns[c := u];
  }

  /** A lone transaction has buffered nothing, so its answer takes effect at once. */
  lemma AnswerWith(s: State, c: Client, t: Txn, u: Txn, log: seq<Entry>, e: Entry)
    requires u.view == NOTHING
    ensures Answer(With(s, c, t, log), c, u, e) == With(s, c, u.(phase := Idle), log + [e])
  {
    PutWith(s, c, t, u.(phase := Idle), log);
  }

  // The transaction of a lone write after each of its steps: begun, checked, flushed, recorded.

  const EMPTY := Txn(Idle, NOTHING, [], {})

  /** The buffer after the fact row alone. */
  function RowOnly(op: Op, row: Option<FactRow>): Tables {
    NOTHING.(facts := map[op.p.key := StoredRow(op.p, row, op.now)])
  }

  function CheckedTxn(op: Op, row: Option<FactRow>): Txn {
    Txn(Checked(op, row, row.Some?), NOTHING, [], if row.Some? then {op.p.key} else {})
  }

  function FlushedTxn(op: Op, row: Option<FactRow>): Txn {
    Txn(Flushed(op, row, true, NOTHING), RowOnly(op, row), [], {op.p.key})
  }

  function WrittenTxn(cfg: Config, op: Op, row: Option<FactRow>): Txn {
    Txn(Idle, Delta(cfg, op.p, row, op.now), [Entry(op, Reply(cfg, op.sources, op.p, row, op.now))], {op.p.key})
  }

  lemma LoneCommit(cfg: Config, s: State, c: Client, t: Txn, log: seq<Entry>)
    requires c !in s.txns && t.phase == Idle
    ensures Do(cfg, With(s, c, t, log), Commit(c)) == Some(State(WithRows(s.committed, t.view), s.txns, log + t.pending))
  {
    assert s.txns[c := t] - {c} == s.txns;
  }

  lemma LoneCheck(cfg: Config, s: State, c: Client, op: Op)
    requires c !in s.txns && Free(s, c, op.p.key)
    ensures var s1, row, key := With(s, c, EMPTY, s.log), RowOf(s.committed, op.p.key), op.p.key;
            var e := Entry(op, SerialReply(cfg, s.committed, op));
            match Decide(op.sources, op.p, row)
            case Fail => true
            case Refuse(_) => Do(cfg, s1, Check(c, op)) == Some(With(s, c, EMPTY, s.log + [e]))
            case Same => Do(cfg, s1, Check(c, op)) == Some(With(s, c, EMPTY.(locks := {key}), s.log + [e]))
            case Go => Do(cfg, s1, Check(c, op)) == Some(With(s, c, CheckedTxn(op, row), s.log))
  {
    var s1, row, key := With(s, c, EMPTY, s.log), RowOf(s.committed, op.p.key), op.p.key;
    var e := Entry(op, SerialReply(cfg, s.committed, op));
    NoRowsAdded(s.committed);
    assert Free(s1, c, key);
    assert {} + {key} == {key};
    AnswerWith(s, c, EMPTY, EMPTY, s.log, e);
    AnswerWith(s, c, EMPTY, EMPTY.(locks := {key}), s.log, e);
    PutWith(s, c, EMPTY, CheckedTxn(op, row), s.log);
  }

  lemma LoneFlush(cfg: Config, s: State, c: Client, op: Op)
    requires c !in s.txns && Free(s, c, op.p.key) && RowFits(op.p)
    ensures var row := RowOf(s.committed, op.p.key);
            Do(cfg, With(s, c, CheckedTxn(op, row), s.log), Flush(c)) == Some(With(s, c, FlushedTxn(op, row), s.log))
  {
    var row, key := RowOf(s.committed, op.p.key), op.p.key;
    var s2 := With(s, c, CheckedTxn(op, row), s.log);
    assert Free(s2, c, key);
    assert CheckedTxn(op, row).locks + {key} == {key};
    assert NOTHING.facts[key := StoredRow(op.p, row, op.now)] == RowOnly(op, row).facts;
    PutWith(s, c, CheckedTxn(op, row), FlushedTxn(op, row), s.log);
  }

  lemma LoneRefusal(cfg: Config, s: State, c: Client, op: Op)
    requires c !in s.txns && RevisionFits(op.p) && AnyBadUuid(cfg, op.p.refs)
    requires RevisionIdOf(op.p, RowOf(s.committed, op.p.key)) !in s.committed.revisions
    ensures var row := RowOf(s.committed, op.p.key);
            var e := Entry(op, Reply(cfg, op.sources, op.p, row, op.now));
            Do(cfg, With(s, c, FlushedTxn(op, row), s.log), Record(c)) == Some(With(s, c, EMPTY, s.log + [e]))
  {
    var row, key := RowOf(s.committed, op.p.key), op.p.key;
    var e := Entry(op, Reply(cfg, op.sources, op.p, row, op.now));
    assert WithRows(s.committed, RowOnly(op, row)).revisions == s.committed.revisions;
    assert {key} - {key} == {};
    AnswerWith(s, c, FlushedTxn(op, row), FlushedTxn(op, row).(view := NOTHING, locks := {}), s.log, e);
  }

  lemma LoneRecord(cfg: Config, s: State, c: Client, op: Op)
    requires c !in s.txns && RevisionFits(op.p) && !AnyBadUuid(cfg, op.p.refs) && CitationsFit(op.p.refs)
    requires RevisionIdOf(op.p, RowOf(s.committed, op.p.key)) !in s.committed.revisions
    ensures var row := RowOf(s.committed, op.p.key);
            Do(cfg, With(s, c, FlushedTxn(op, row), s.log), Record(c)) == Some(With(s, c, WrittenTxn(cfg, op, row), s.log))
  {
    var row := RowOf(s.committed, op.p.key);
    var id := RevisionIdOf(op.p, row);
    assert WithRows(s.committed, RowOnly(op, row)).revisions == s.committed.revisions;
    assert RowOnly(op, row).facts == NOTHING.facts[op.p.key := StoredRow(op.p, row, op.now)];
    RecordedRows(cfg, op, row, NOTHING, RowOnly(op, row));
    NoRowsAdded(Delta(cfg, op.p, row, op.now));
    assert FlushedTxn(op, row).pending + WrittenTxn(cfg, op, row).pending == WrittenTxn(cfg, op, row).pending;
    PutWith(s, c, FlushedTxn(op, row), WrittenTxn(cfg, op, row), s.log);
  }

  lemma LoneBegin(cfg: Config, s: State, c: Client)
    requires c !in s.txns
    ensures Do(cfg, s, Begin(c)) == Some(With(s, c, EMPTY, s.log))
  {
  }

  lemma LoneAnswer(cfg: Config, s: State, c: Client, op: Op)
    requires c !in s.txns && Free(s, c, op.p.key)
    requires var verdict := Decide(op.sources, op.p, RowOf(s.committed, op.p.key)); verdict.Refuse? || verdict.Same?
    ensures Run(cfg, s, OwnSteps(c, op, false))
            == Some(State(s.committed, s.txns, s.log + [Entry(op, SerialReply(cfg, s.committed, op))]))
  {
    var log := s.log + [Entry(op, SerialReply(cfg, s.committed, op))];
    LoneBegin(cfg, s, c);
    LoneCheck(cfg, s, c, op);
    NoRowsAdded(s.committed);
    var t := if Decide(op.sources, op.p, RowOf(s.committed, op.p.key)).Same? then EMPTY.(locks := {op.p.key}) else EMPTY;
    ThreeSteps(cfg, s, Begin(c), Check(c, op), Commit(c), With(s, c, EMPTY, s.log), With(s, c, t, log));
    LoneCommit(cfg, s, c, t, log);
    assert log + t.pending == log;
  }

  lemma LoneUntilFlush(cfg: Config, s: State, c: Client, op: Op)
    requires c !in s.txns && Free(s, c, op.p.key) && RowFits(op.p)
    requires Decide(op.sources, op.p, RowOf(s.committed, op.p.key)) == Go
    ensures Run(cfg, s, [Begin(c), Check(c, op), Flush(c)]) == Some(With(s, c, FlushedTxn(op, RowOf(s.committed, op.p.key)), s.log))
  {
    LoneBegin(cfg, s, c);
    LoneCheck(cfg, s, c, op);
    LoneFlush(cfg, s, c, op);
    ThreeSteps(cfg, s, Begin(c), Check(c, op), Flush(c), With(s, c, EMPTY, s.log),
               With(s, c, CheckedTxn(op, RowOf(s.committed, op.p.key)), s.log));
  }

  lemma LoneEnd(cfg: Config, s: State, c: Client, op: Op, t: Txn, log: seq<Entry>)
    requires c !in s.txns && t.phase == Idle
    requires Run(cfg, s, [Begin(c), Check(c, op), Flush(c)]).Some?
    requires Do(cfg, Run(cfg, s, [Begin(c), Check(c, op), Flush(c)]).value, Record(c)) == Some(With(s, c, t, log))
    ensures Run(cfg, s, OwnSteps(c, op, true)) == Some(State(WithRows(s.committed, t.view), s.txns, log + t.pending))
  {
    FiveSteps(cfg, s, Begin(c), Check(c, op), Flush(c), Record(c), Commit(c),
              Run(cfg, s, [Begin(c), Check(c, op), Flush(c)]).value, With(s, c, t, log));
    LoneCommit(cfg, s, c, t, log);
  }

  lemma LoneFlushes(cfg: Config, s: State, c: Client, op: Op)
    requires c !in s.txns && Free(s, c, op.p.key)
    requires Decide(op.sources, op.p, RowOf(s.committed, op.p.key)) == Go
    requires RowFits(op.p) && RevisionFits(op.p) && (!AnyBadUuid(cfg, op.p.refs) ==> CitationsFit(op.p.refs))
    requires RevisionIdOf(op.p, RowOf(s.committed, op.p.key)) !in s.committed.revisions
    ensures Run(cfg, s, OwnSteps(c, op, true))
            == Some(State(WithRows(s.committed, Added(cfg, s.committed, op)), s.txns,
                          s.log + [Entry(op, SerialReply(cfg, s.committed, op))]))
  {
    var row, log := RowOf(s.committed, op.p.key), s.log + [Entry(op, SerialReply(cfg, s.committed, op))];
    LoneUntilFlush(cfg, s, c, op);
    if AnyBadUuid(cfg, op.p.refs) {
      LoneRefusal(cfg, s, c, op);
      LoneEnd(cfg, s, c, op, EMPTY, log);
      assert log + EMPTY.pending == log;
    } else {
      LoneRecord(cfg, s, c, op);
      LoneEnd(cfg, s, c, op, WrittenTxn(cfg, op, row), s.log);
    }
  }

  /** A write whose fact no other transaction holds can run to its end, in any state and whatever the
      others are doing. It commits exactly the rows, and leaves exactly the answer, of the write as one
      atomic step. */
  lemma UncontestedWrite(cfg: Config, s: State, store: Store, c: Client, p: Prepared, now: nat, txnNow: nat) returns (steps: seq<Step>)
    requires store.tables == s.committed && HistoryOk(s.committed)
    requires c !in s.txns && Free(s, c, p.key)
    requires !WritePrepared(cfg, store, p, now, txnNow).0.Crashed?
    ensures steps == OwnSteps(c, Op(p, now, store.sources), |steps| == 5)
    ensures IsWrite(WritePrepared(cfg, store, p, now, txnNow).0) ==> |steps| == 5
    ensures var (reply, after) := WritePrepared(cfg, store, p, now, txnNow);
            Run(cfg, s, steps) == Some(State(after.tables, s.txns, s.log + [Entry(Op(p, now, store.sources), reply)]))
  {
    var op := Op(p, now, store.sources);
    AtomicWriteIsSerialStep(cfg, store, p, now, txnNow);
    steps := OwnSteps(c, op, Decide(op.sources, p, RowOf(s.committed, p.key)) == Go);
    if Decide(op.sources, p, RowOf(s.committed, p.key)) == Go {
      WriteCrashesIff(cfg, store, p, now, txnNow);
      NextRevisionIsFree(s.committed, p.key);
      LoneFlushes(cfg, s, c, op);
    } else {
      WriteCrashesIff(cfg, store, p, now, txnNow);
      LoneAnswer(cfg, s, c, op);
      NoRowsAdded(s.committed);
    }
  }

  // ---- what the others cannot do ----------------------------------------------------

  predicate OthersOnly(steps: seq<Step>, c: Client) {
    forall i :: 0 <= i < |steps| ==> steps[i].c != c
  }

  /** The steps of other clients leave a transaction as it is. */
  lemma {:induction false} OthersLeaveTxn(cfg: Config, s: State, steps: seq<Step>, c: Client)
    requires OthersOnly(steps, c) && Run(cfg, s, steps).Some?
    ensures var u := Run(cfg, s, steps).value; (c in u.txns <==> c in s.txns) && (c in s.txns ==> u.txns[c] == s.txns[c])
  {
    if steps != [] {
      OthersLeaveTxn(cfg, s, steps[..|steps| - 1], c);
      StepIsOwn(cfg, Run(cfg, s, steps[..|steps| - 1]).value, steps[|steps| - 1]);
    }
  }

  lemma OthersSpareRow(cfg: Config, init: Tables, s: State, step: Step, c: Client, key: string)
    requires Inv(cfg, init, s) && Do(cfg, s, step).Some? && step.c != c
    requires c in s.txns && key in s.txns[c].locks
    ensures RowOf(Do(cfg, s, step).value.committed, key) == RowOf(s.committed, key)
  {
    if step.Commit? { CommitSparesLocks(cfg, init, s, step.c, c, key); } else { OnlyCommitsChange(cfg, s, step); }
  }

  /** What a client has locked stays as it is: whatever the others do until its next step, the
      committed row of the key is the one that it saw. */
  lemma {:induction false} LockedRowIsStable(cfg: Config, init: Tables, before: seq<Step>, s: State, steps: seq<Step>, c: Client, key: string)
    requires Run(cfg, Start(init), before) == Some(s) && c in s.txns && key in s.txns[c].locks
    requires OthersOnly(steps, c) && Run(cfg, s, steps).Some?
    ensures RowOf(Run(cfg, s, steps).value.committed, key) == RowOf(s.committed, key)
  {
    if steps != [] {
      var front := steps[..|steps| - 1];
      LockedRowIsStable(cfg, init, before, s, front, c, key);
      OthersLeaveTxn(cfg, s, front, c);
      RunAppend(cfg, Start(init), before, front);
      RunKeepsInv(cfg, init, before + front);
      OthersSpareRow(cfg, init, Run(cfg, s, front).value, steps[|steps| - 1], c, key);
    }
  }

  /** Who has gone past the check of a stored fact, or found its value unchanged, owns its key. A
      refused write owns nothing that its transaction did not own before. */
  lemma CheckTakesLock(cfg: Config, init: Tables, steps: seq<Step>, s: State, c: Client, op: Op)
    requires Run(cfg, Start(init), steps) == Some(s) && Do(cfg, s, Check(c, op)).Some?
    ensures var u, verdict := Do(cfg, s, Check(c, op)).value, Decide(op.sources, op.p, Seen(s, c, op.p.key));
            && u.txns[c].locks == s.txns[c].locks + (if Seen(s, c, op.p.key).Some? && !verdict.Refuse? then {op.p.key} else {})
            && u.txns[c].view == s.txns[c].view && u.committed == s.committed
  {
    RunKeepsInv(cfg, init, steps);
    assert Seen(s, c, op.p.key) == RowOf(WithRows(s.committed, s.txns[c].view), op.p.key);
    BufferedKeysAreLocked(cfg, s.committed, s.txns[c]);
    CheckLocks(cfg, s, c, op);
  }

  lemma CheckLocks(cfg: Config, s: State, c: Client, op: Op)
    requires c in s.txns && (forall key :: key in s.txns[c].view.facts ==> key in s.txns[c].locks)
    requires DoCheck(cfg, s, c, op).Some?
    ensures var u, row := DoCheck(cfg, s, c, op).value, RowOf(WithRows(s.committed, s.txns[c].view), op.p.key);
            && u.txns[c].locks == s.txns[c].locks + (if row.Some? && !Decide(op.sources, op.p, row).Refuse? then {op.p.key} else {})
            && u.txns[c].view == s.txns[c].view && u.committed == s.committed
  {
    var row := RowOf(WithRows(s.committed, s.txns[c].view), op.p.key);
    if Decide(op.sources, op.p, row).Same? { SameHasRow(op, row); }
  }

  /** What a check that goes on and the flush after it leave of a transaction. */
  lemma FlushAfterCheck(cfg: Config, s: State, c: Client, op: Op, s2: State)
    requires DoCheck(cfg, s, c, op).Some? && c in s2.txns && s2.txns[c] == DoCheck(cfg, s, c, op).value.txns[c]
    requires DoFlush(cfg, s2, c).Some?
    ensures var row := RowOf(WithRows(s.committed, s.txns[c].view), op.p.key);
            var took := (op.p.key in s.committed.facts && op.p.key !in s.txns[c].locks) || row.None?;
            var t := DoFlush(cfg, s2, c).value.txns[c];
            && t.phase == Flushed(op, row, took, s.txns[c].view) && t.locks == s.txns[c].locks + {op.p.key}
  {
  }

  lemma RecordRefused(cfg: Config, s: State, c: Client)
    requires DoRecord(cfg, s, c).Some? && AnyBadUuid(cfg, s.txns[c].phase.op.p.refs)
    ensures var t, u := s.txns[c], DoRecord(cfg, s, c).value;
            && u.committed == s.committed && u.txns[c].phase == Idle && u.txns[c].view == t.phase.saved
            && u.txns[c].locks == if t.phase.took then t.locks - {t.phase.op.p.key} else t.locks
  {
  }

  /** Taking the key of a write that acquired it out again leaves the locks of before. */
  lemma LocksBack(committed: Tables, t: Txn, key: string)
    requires TxnRows(committed, t) && forall k :: k in t.view.facts ==> k in t.locks
    ensures var took := (key in committed.facts && key !in t.locks) || RowOf(WithRows(committed, t.view), key).None?;
            (if took then t.locks + {key} - {key} else t.locks + {key}) == t.locks
  {
  }

  lemma FlushedAfter(cfg: Config, s: State, c: Client, op: Op, s1: State, a: seq<Step>, s2: State, s3: State)
    requires Do(cfg, s, Check(c, op)) == Some(s1) && OthersOnly(a, c) && Run(cfg, s1, a) == Some(s2)
    requires Do(cfg, s2, Flush(c)) == Some(s3)
    ensures c in s.txns && c in s3.txns
    ensures var took := (op.p.key in s.committed.facts && op.p.key !in s.txns[c].locks)
                        || RowOf(WithRows(s.committed, s.txns[c].view), op.p.key).None?;
            var t := s3.txns[c];
            && t.phase.Flushed? && t.phase.op == op && t.phase.took == took && t.phase.saved == s.txns[c].view
            && t.locks == s.txns[c].locks + {op.p.key}
  {
    OthersLeaveTxn(cfg, s1, a, c);
    FlushAfterCheck(cfg, s, c, op, s2);
  }

  lemma UndoneAfter(cfg: Config, s3: State, c: Client, b: seq<Step>, s4: State, u: State)
    requires c in s3.txns && s3.txns[c].phase.Flushed? && AnyBadUuid(cfg, s3.txns[c].phase.op.p.refs)
    requires OthersOnly(b, c) && Run(cfg, s3, b) == Some(s4) && Do(cfg, s4, Record(c)) == Some(u)
    ensures c in u.txns
    ensures var t := s3.txns[c];
            && u.committed == s4.committed && u.txns[c].phase == Idle && u.txns[c].view == t.phase.saved
            && u.txns[c].locks == if t.phase.took then t.locks - {t.phase.op.p.key} else t.locks
  {
    OthersLeaveTxn(cfg, s3, b, c);
    RecordRefused(cfg, s4, c);
  }

  /** A write that is refused after its row was flushed is undone: whatever the others do between its
      steps, its transaction is left with the rows and the locks that it had before the check. */
  lemma RefusedWriteIsUndone(cfg: Config, init: Tables, before: seq<Step>, s: State, c: Client, op: Op,
                             s1: State, a: seq<Step>, s2: State, s3: State, b: seq<Step>, s4: State, u: State)
    requires Run(cfg, Start(init), before) == Some(s)
    requires Do(cfg, s, Check(c, op)) == Some(s1) && OthersOnly(a, c) && Run(cfg, s1, a) == Some(s2)
    requires Do(cfg, s2, Flush(c)) == Some(s3) && OthersOnly(b, c) && Run(cfg, s3, b) == Some(s4)
    requires Do(cfg, s4, Record(c)) == Some(u) && AnyBadUuid(cfg, op.p.refs)
    ensures c in u.txns && u.txns[c].phase == Idle
    ensures u.txns[c].view == s.txns[c].view && u.txns[c].locks == s.txns[c].locks
    ensures u.committed == s4.committed
  {
    RunKeepsInv(cfg, init, before);
    RunKeepsRows(cfg, init, before);
    FlushedAfter(cfg, s, c, op, s1, a, s2, s3);
    UndoneAfter(cfg, s3, c, b, s4, u);
    BufferedKeysAreLocked(cfg, s.committed, s.txns[c]);
    LocksBack(s.committed, s.txns[c], op.p.key);
  }
}
