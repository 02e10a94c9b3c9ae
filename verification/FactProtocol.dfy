/** Concurrent writers of facts, step by step. A transaction locks rows as it reads them, buffers
    its writes behind savepoints, and commits or aborts as a whole. */
module FactProtocol {
  import opened Wrappers
  import opened Database
  import opened Facts
  import opened SerialWrites

  type Client = nat

  /** Where the current write of a transaction stands. `took` says that this write acquired the
      lock on its key, so rolling back to its savepoint gives the lock up. */
  datatype Phase =
    | Idle
    | Checked(op: Op, row: Option<FactRow>, took: bool)
    | Flushed(op: Op, row: Option<FactRow>, took: bool, saved: Tables)

  /** `view` is what the transaction has buffered, `pending` its answered writes that depend on
      the buffer, `locks` the keys it owns: locked rows and uncommitted inserts. */
  datatype Txn = Txn(phase: Phase, view: Tables, pending: seq<Entry>, locks: set<string>)

  /** `log` records the answers in the order in which they took effect. */
  datatype State = State(committed: Tables, txns: map<Client, Txn>, log: seq<Entry>)

  datatype Step =
    | Begin(c: Client)
    | Check(c: Client, op: Op)
    | Flush(c: Client)
    | Record(c: Client)
    | Commit(c: Client)
    | Abort(c: Client)

  // ---- the steps --------------------------------------------------------------------

  predicate Free(s: State, c: Client, key: string) {
    forall d :: d in s.txns && d != c ==> key !in s.txns[d].locks
  }

  function Put(s: State, c: Client, t: Txn): State {
    s.(txns := s.txns[c := t])
  }

  /** An answer that needs no commit takes effect at once, unless it depends on rows that the
      transaction itself has buffered. */
  function Answer(s: State, c: Client, t: Txn, e: Entry): State {
    if Key(e) in t.view.facts then Put(s, c, t.(phase := Idle, pending := t.pending + [e]))
    else Put(s, c, t.(phase := Idle)).(log := s.log + [e])
  }

  /** The row lock and the checks on the row. A row locked by another transaction blocks; a row
      that is not there is seen as absent without any lock. */
  function DoCheck(cfg: Config, s: State, c: Client, op: Op): Option<State> {
    if c !in s.txns || s.txns[c].phase != Idle then None
    else
      var t, key := s.txns[c], op.p.key;
      var row := RowOf(WithRows(s.committed, t.view), key);
      var took := key in s.committed.facts && key !in t.locks;
      if took && !Free(s, c, key) then None
      else
        match Decide(op.sources, op.p, row)
        case Fail => None
        case Refuse(_) => Some(Answer(s, c, t, Entry(op, Reply(cfg, op.sources, op.p, row, op.now))))
        case Same =>
          Some(Answer(s, c, t.(locks := t.locks + {key}), Entry(op, Reply(cfg, op.sources, op.p, row, op.now))))
        case Go => Some(Put(s, c, t.(phase := Checked(op, row, took), locks := if took then t.locks + {key} else t.locks)))
  }

  /** The fact row is written. An insert waits for another uncommitted insert of the key and is
      refused by the unique index once the key is there; text that does not fit its column fails. */
  function DoFlush(cfg: Config, s: State, c: Client): Option<State> {
    if c !in s.txns || !s.txns[c].phase.Checked? then None
    else
      var t, op := s.txns[c], s.txns[c].phase.op;
      var key, row := op.p.key, t.phase.row;
      if !RowFits(op.p) || (row.None? && (!Free(s, c, key) || key in s.committed.facts)) then None
      else
        Some(Put(s, c, t.(phase := Flushed(op, row, t.phase.took || row.None?, t.view),
                          view := t.view.(facts := t.view.facts[key := StoredRow(op.p, row, op.now)]),
                          locks := t.locks + {key})))
  }

  /** The revision and its sources are written. A revision number that is taken is refused by the
      unique index; a bad event id takes the write back to its savepoint. */
  function DoRecord(cfg: Config, s: State, c: Client): Option<State> {
    if c !in s.txns || !s.txns[c].phase.Flushed? then None
    else
      var t, op := s.txns[c], s.txns[c].phase.op;
      var row, key := t.phase.row, op.p.key;
      var e := Entry(op, Reply(cfg, op.sources, op.p, row, op.now));
      var id := RevisionIdOf(op.p, row);
      if id in WithRows(s.committed, t.view).revisions || !RevisionFits(op.p) then None
      else if AnyBadUuid(cfg, op.p.refs)
      then Some(Answer(s, c, t.(view := t.phase.saved, locks := if t.phase.took then t.locks - {key} else t.locks), e))
      else if !CitationsFit(op.p.refs) then None
      else
        var rows := Tables(map[], map[id := NewRevision(op.p, op.now)], Citations(cfg, id, op.p.refs));
        Some(Put(s, c, t.(phase := Idle, view := WithRows(t.view, rows), pending := t.pending + [e])))
  }

  function Do(cfg: Config, s: State, step: Step): Option<State> {
    match step
    case Begin(c) => if c in s.txns then None else Some(Put(s, c, Txn(Idle, NOTHING, [], {})))
    case Check(c, op) => DoCheck(cfg, s, c, op)
    case Flush(c) => DoFlush(cfg, s, c)
    case Record(c) => DoRecord(cfg, s, c)
    case Commit(c) =>
      if c !in s.txns || s.txns[c].phase != Idle then None
      else Some(State(WithRows(s.committed, s.txns[c].view), s.txns - {c}, s.log + s.txns[c].pending))
    case Abort(c) => if c in s.txns then Some(s.(txns := s.txns - {c})) else None
  }

  function Start(t: Tables): State {
    State(t, map[], [])
  }

  /** The state after a run, if every step of it was possible. */
  function Run(cfg: Config, s: State, steps: seq<Step>): Option<State> {
    if steps == [] then Some(s)
    else
      match Run(cfg, s, steps[..|steps| - 1])
      case None => None
      case Some(u) => Do(cfg, u, steps[|steps| - 1])
  }

  // ---- the invariant ----------------------------------------------------------------

  /** The buffer without the write under way. */
  function Base(t: Txn): Tables {
    if t.phase.Flushed? then t.phase.saved else t.view
  }

  ghost predicate PhaseOk(cfg: Config, committed: Tables, t: Txn) {
    match t.phase
    case Idle => true
    case Checked(op, row, took) =>
      && Decide(op.sources, op.p, row) == Go
      && (took ==> op.p.key !in Keys(t.pending))
      && (if row.Some? then op.p.key in t.locks && row == RowOf(WithRows(committed, t.view), op.p.key)
          else op.p.key !in t.view.facts && op.p.key !in Keys(t.pending))
    case Flushed(op, row, took, saved) =>
      && Decide(op.sources, op.p, row) == Go
      && op.p.key in t.locks
      && (took ==> op.p.key !in Keys(t.pending))
      && row == RowOf(WithRows(committed, saved), op.p.key)
      && t.view == saved.(facts := saved.facts[op.p.key := StoredRow(op.p, row, op.now)])
  }

  /** A transaction's buffer is what its pending writes do to the committed tables, and it owns
      the keys they depend on. */
  ghost predicate TxnOk(cfg: Config, committed: Tables, t: Txn) {
    && Keys(t.pending) <= t.locks
    && Base(t) == SerialDelta(cfg, committed, t.pending)
    && Agrees(cfg, committed, t.pending)
    && (forall i :: 0 <= i < |t.pending| ==> Key(t.pending[i]) in Base(t).facts)
    && PhaseOk(cfg, committed, t)
  }

  ghost predicate LocksOk(s: State) {
    forall c, d :: c in s.txns && d in s.txns && c != d ==> s.txns[c].locks !! s.txns[d].locks
  }

  /** The log is a serial run that gives the committed tables and every recorded answer. */
  ghost predicate LogOk(cfg: Config, init: Tables, s: State) {
    s.committed == Serial(cfg, init, s.log) && Agrees(cfg, init, s.log)
  }

  ghost predicate Inv(cfg: Config, init: Tables, s: State) {
    LocksOk(s) && LogOk(cfg, init, s) && forall c :: c in s.txns ==> TxnOk(cfg, s.committed, s.txns[c])
  }

  // ---- preservation -----------------------------------------------------------------

  lemma RowBehind(t: Tables, u: Tables, d: Tables, key: string)
    requires RowOf(t, key) == RowOf(u, key)
    ensures RowOf(WithRows(t, d), key) == RowOf(WithRows(u, d), key)
  {
  }

  lemma PhaseFrame(cfg: Config, before: Tables, after: Tables, t: Txn)
    requires PhaseOk(cfg, before, t)
    requires forall key :: key in t.locks ==> RowOf(before, key) == RowOf(after, key)
    ensures PhaseOk(cfg, after, t)
  {
    match t.phase
    case Idle =>
    case Checked(op, row, took) => if row.Some? { RowBehind(before, after, t.view, op.p.key); }
    case Flushed(op, row, took, saved) => RowBehind(before, after, saved, op.p.key);
  }

  /** A transaction is unaffected by a commit that leaves the rows of its locks alone. */
  lemma TxnFrame(cfg: Config, before: Tables, after: Tables, t: Txn)
    requires TxnOk(cfg, before, t)
    requires forall key :: key in t.locks ==> RowOf(before, key) == RowOf(after, key)
    ensures TxnOk(cfg, after, t)
  {
    forall i | 0 <= i < |t.pending| ensures RowOf(before, Key(t.pending[i])) == RowOf(after, Key(t.pending[i])) {
      assert Key(t.pending[i]) in Keys(t.pending);
    }
    SerialIsLocal(cfg, before, after, t.pending);
    PhaseFrame(cfg, before, after, t);
  }

  /** The keys of `locks` that are new to transaction `c` are free. */
  ghost predicate MayLock(s: State, c: Client, locks: set<string>) {
    forall key :: key in locks && (c in s.txns ==> key !in s.txns[c].locks) ==> Free(s, c, key)
  }

  lemma LocksStayDisjoint(s: State, c: Client, t: Txn)
    requires LocksOk(s) && MayLock(s, c, t.locks)
    ensures LocksOk(Put(s, c, t))
  {
    forall d | d in s.txns && d != c ensures t.locks !! s.txns[d].locks {
      forall key | key in t.locks ensures key !in s.txns[d].locks {
        if c in s.txns && key in s.txns[c].locks { assert s.txns[c].locks !! s.txns[d].locks; }
      }
    }
  }

  /** Replacing one transaction by one that owns no key of another. */
  lemma PutOk(cfg: Config, init: Tables, s: State, c: Client, t: Txn)
    requires Inv(cfg, init, s)
    requires TxnOk(cfg, s.committed, t) && MayLock(s, c, t.locks)
    ensures Inv(cfg, init, Put(s, c, t))
  {
    LocksStayDisjoint(s, c, t);
  }

  /** One more pending answer. */
  lemma PendingMore(cfg: Config, committed: Tables, t: Txn, e: Entry)
    requires Agrees(cfg, committed, t.pending)
    requires e.reply == SerialReply(cfg, Serial(cfg, committed, t.pending), e.op)
    ensures Agrees(cfg, committed, t.pending + [e])
    ensures SerialDelta(cfg, committed, t.pending + [e])
            == WithRows(SerialDelta(cfg, committed, t.pending), Added(cfg, Serial(cfg, committed, t.pending), e.op))
    ensures Keys(t.pending + [e]) == Keys(t.pending) + {Key(e)}
  {
    SerialLast(cfg, committed, t.pending, e);
    var es := t.pending + [e];
    forall k | k in Keys(t.pending) + {Key(e)} ensures k in Keys(es) {
      if k == Key(e) {
        assert es[|t.pending|] == e;
      } else {
        var i :| 0 <= i < |t.pending| && Key(t.pending[i]) == k;
        assert es[i] == t.pending[i];
      }
    }
  }

  lemma LogMore(cfg: Config, init: Tables, s: State, e: Entry)
    requires Inv(cfg, init, s) && !Accepted(e) && e.reply == SerialReply(cfg, s.committed, e.op)
    ensures Inv(cfg, init, s.(log := s.log + [e]))
  {
    SerialLast(cfg, init, s.log, e);
    NoRowsAdded(s.committed);
  }

  /** A write that adds nothing is answered: at once, or with the buffer it depends on. */
  lemma AnswerOk(cfg: Config, init: Tables, s: State, c: Client, t: Txn, e: Entry)
    requires Inv(cfg, init, s)
    requires TxnOk(cfg, s.committed, t.(phase := Idle))
    requires MayLock(s, c, t.locks)
    requires Key(e) in t.view.facts ==> Key(e) in t.locks
    requires e.reply == SerialReply(cfg, WithRows(s.committed, t.view), e.op) && !Accepted(e)
    ensures Inv(cfg, init, Answer(s, c, t, e))
  {
    var idle := t.(phase := Idle);
    var d := SerialDelta(cfg, s.committed, t.pending);
    if Key(e) in t.view.facts {
      PendingMore(cfg, s.committed, idle, e);
      NoRowsAdded(d);
      PutOk(cfg, init, s, c, idle.(pending := t.pending + [e]));
    } else {
      assert RowOf(WithRows(s.committed, t.view), Key(e)) == RowOf(s.committed, Key(e));
      PutOk(cfg, init, s, c, idle);
      LogMore(cfg, init, Put(s, c, idle), e);
      assert Answer(s, c, t, e) == Put(s, c, idle).(log := s.log + [e]);
    }
  }

  lemma BufferedKeysAreLocked(cfg: Config, committed: Tables, t: Txn)
    requires TxnOk(cfg, committed, t)
    ensures forall key :: key in Base(t).facts ==> key in t.locks && key in Keys(t.pending)
  {
    SerialKeys(cfg, committed, t.pending);
  }

  lemma CheckGoes(cfg: Config, init: Tables, s: State, c: Client, op: Op, u: Txn)
    requires Inv(cfg, init, s) && c in s.txns && s.txns[c].phase == Idle
    requires var t, key := s.txns[c], op.p.key;
             var row := RowOf(WithRows(s.committed, t.view), key);
             var took := key in s.committed.facts && key !in t.locks;
             && (took ==> Free(s, c, key))
             && Decide(op.sources, op.p, row) == Go
             && u == t.(phase := Checked(op, row, took), locks := if took then t.locks + {key} else t.locks)
    ensures TxnOk(cfg, s.committed, u) && MayLock(s, c, u.locks)
  {
    var t, key := s.txns[c], op.p.key;
    BufferedKeysAreLocked(cfg, s.committed, t);
    assert key in Keys(t.pending) ==> key in t.view.facts by {
      if key in Keys(t.pending) { var i :| 0 <= i < |t.pending| && Key(t.pending[i]) == key; }
    }
    assert PhaseOk(cfg, s.committed, u);
  }

  /** A check that ends the write: a refusal, or an unchanged value on a row that is now locked. */
  lemma CheckAnswers(cfg: Config, init: Tables, s: State, c: Client, op: Op, u: Txn)
    requires Inv(cfg, init, s) && c in s.txns && s.txns[c].phase == Idle
    requires var t, key := s.txns[c], op.p.key;
             var row := RowOf(WithRows(s.committed, t.view), key);
             && Decide(op.sources, op.p, row) != Go && Decide(op.sources, op.p, row) != Fail
             && (u == t || (u == t.(locks := t.locks + {key}) && MayLock(s, c, u.locks)))
    ensures var row := RowOf(WithRows(s.committed, s.txns[c].view), op.p.key);
            Inv(cfg, init, Answer(s, c, u, Entry(op, Reply(cfg, op.sources, op.p, row, op.now))))
  {
    BufferedKeysAreLocked(cfg, s.committed, s.txns[c]);
    var row := RowOf(WithRows(s.committed, s.txns[c].view), op.p.key);
    AnswerOk(cfg, init, s, c, u, Entry(op, Reply(cfg, op.sources, op.p, row, op.now)));
  }

  lemma SameHasRow(op: Op, row: Option<FactRow>)
    requires Decide(op.sources, op.p, row) == Same
    ensures row.Some?
  {
  }

  lemma CheckKeepsInv(cfg: Config, init: Tables, s: State, c: Client, op: Op)
    requires Inv(cfg, init, s) && DoCheck(cfg, s, c, op).Some?
    ensures Inv(cfg, init, DoCheck(cfg, s, c, op).value)
  {
    var t, key := s.txns[c], op.p.key;
    var row := RowOf(WithRows(s.committed, t.view), key);
    var took := key in s.committed.facts && key !in t.locks;
    match Decide(op.sources, op.p, row)
    case Refuse(_) => CheckAnswers(cfg, init, s, c, op, t);
    case Same =>
      SameHasRow(op, row);
      BufferedKeysAreLocked(cfg, s.committed, t);
      var u := t.(locks := t.locks + {key});
      assert MayLock(s, c, u.locks);
      CheckAnswers(cfg, init, s, c, op, u);
    case Go =>
      var u := t.(phase := Checked(op, row, took), locks := if took then t.locks + {key} else t.locks);
      CheckGoes(cfg, init, s, c, op, u);
      PutOk(cfg, init, s, c, u);
  }

  lemma FlushedOk(cfg: Config, committed: Tables, t: Txn, u: Txn)
    requires TxnOk(cfg, committed, t) && t.phase.Checked?
    requires t.phase.row.None? ==> t.phase.op.p.key !in committed.facts
    requires var op, row := t.phase.op, t.phase.row;
             u == t.(phase := Flushed(op, row, t.phase.took || row.None?, t.view),
                     view := t.view.(facts := t.view.facts[op.p.key := StoredRow(op.p, row, op.now)]),
                     locks := t.locks + {op.p.key})
    ensures TxnOk(cfg, committed, u)
  {
    assert PhaseOk(cfg, committed, u);
  }

  lemma FlushKeepsInv(cfg: Config, init: Tables, s: State, c: Client)
    requires Inv(cfg, init, s) && DoFlush(cfg, s, c).Some?
    ensures Inv(cfg, init, DoFlush(cfg, s, c).value)
  {
    var u := DoFlush(cfg, s, c).value.txns[c];
    FlushedOk(cfg, s.committed, s.txns[c], u);
    PutOk(cfg, init, s, c, u);
  }

  lemma RecordedRows(cfg: Config, op: Op, row: Option<FactRow>, saved: Tables, view: Tables)
    requires view == saved.(facts := saved.facts[op.p.key := StoredRow(op.p, row, op.now)])
    ensures var id := RevisionIdOf(op.p, row);
            WithRows(view, Tables(map[], map[id := NewRevision(op.p, op.now)], Citations(cfg, id, op.p.refs)))
            == WithRows(saved, Delta(cfg, op.p, row, op.now))
  {
    var id := RevisionIdOf(op.p, row);
    var rows := Tables(map[], map[id := NewRevision(op.p, op.now)], Citations(cfg, id, op.p.refs));
    assert WithRows(view, rows).facts == WithRows(saved, Delta(cfg, op.p, row, op.now)).facts;
  }

  lemma RolledBackOk(cfg: Config, init: Tables, s: State, c: Client, u: Txn)
    requires Inv(cfg, init, s) && c in s.txns && s.txns[c].phase.Flushed?
    requires var t := s.txns[c];
             u == t.(phase := Idle, view := t.phase.saved,
                     locks := if t.phase.took then t.locks - {t.phase.op.p.key} else t.locks)
    ensures TxnOk(cfg, s.committed, u) && MayLock(s, c, u.locks)
    ensures forall key :: key in u.view.facts ==> key in u.locks
  {
    BufferedKeysAreLocked(cfg, s.committed, s.txns[c]);
  }

  lemma RecordedRun(cfg: Config, committed: Tables, t: Txn, e: Entry)
    requires TxnOk(cfg, committed, t) && t.phase.Flushed?
    requires e.op == t.phase.op && Accepted(e)
    requires e.reply == Reply(cfg, e.op.sources, e.op.p, t.phase.row, e.op.now)
    ensures Agrees(cfg, committed, t.pending + [e])
    ensures SerialDelta(cfg, committed, t.pending + [e])
            == WithRows(t.phase.saved, Delta(cfg, e.op.p, t.phase.row, e.op.now))
    ensures Keys(t.pending + [e]) == Keys(t.pending) + {Key(e)}
  {
    assert RowOf(Serial(cfg, committed, t.pending), e.op.p.key) == t.phase.row;
    PendingMore(cfg, committed, t, e);
  }

  lemma RecordedOk(cfg: Config, committed: Tables, t: Txn, e: Entry, u: Txn)
    requires TxnOk(cfg, committed, t) && t.phase.Flushed?
    requires e.op == t.phase.op && Accepted(e)
    requires e.reply == Reply(cfg, e.op.sources, e.op.p, t.phase.row, e.op.now)
    requires u == Txn(Idle, WithRows(t.phase.saved, Delta(cfg, e.op.p, t.phase.row, e.op.now)), t.pending + [e], t.locks)
    ensures TxnOk(cfg, committed, u)
  {
    RecordedRun(cfg, committed, t, e);
    forall i | 0 <= i < |u.pending| ensures Key(u.pending[i]) in u.view.facts {
      if i < |t.pending| { assert u.pending[i] == t.pending[i]; }
    }
  }

  lemma RecordKeepsInv(cfg: Config, init: Tables, s: State, c: Client)
    requires Inv(cfg, init, s) && DoRecord(cfg, s, c).Some?
    ensures Inv(cfg, init, DoRecord(cfg, s, c).value)
  {
    var t := s.txns[c];
    var op, row, key, saved := t.phase.op, t.phase.row, t.phase.op.p.key, t.phase.saved;
    var e := Entry(op, Reply(cfg, op.sources, op.p, row, op.now));
    if AnyBadUuid(cfg, op.p.refs) {
      var u := t.(view := saved, locks := if t.phase.took then t.locks - {key} else t.locks);
      RolledBackOk(cfg, init, s, c, u.(phase := Idle));
      AnswerOk(cfg, init, s, c, u, e);
    } else {
      RecordedRows(cfg, op, row, saved, t.view);
      var u := DoRecord(cfg, s, c).value.txns[c];
      RecordedOk(cfg, s.committed, t, e, u);
      PutOk(cfg, init, s, c, u);
    }
  }

  /** A commit leaves the rows that another transaction has locked alone. */
  lemma CommitSparesLocks(cfg: Config, init: Tables, s: State, c: Client, d: Client, key: string)
    requires Inv(cfg, init, s) && c in s.txns && d in s.txns && c != d && s.txns[c].phase == Idle
    requires key in s.txns[d].locks
    ensures RowOf(s.committed, key) == RowOf(WithRows(s.committed, s.txns[c].view), key)
  {
    BufferedKeysAreLocked(cfg, s.committed, s.txns[c]);
    assert s.txns[c].locks !! s.txns[d].locks;
  }

  lemma OthersSurviveCommit(cfg: Config, init: Tables, s: State, c: Client, d: Client)
    requires Inv(cfg, init, s) && c in s.txns && d in s.txns && c != d && s.txns[c].phase == Idle
    ensures TxnOk(cfg, WithRows(s.committed, s.txns[c].view), s.txns[d])
  {
    var after := WithRows(s.committed, s.txns[c].view);
    forall key | key in s.txns[d].locks ensures RowOf(s.committed, key) == RowOf(after, key) {
      CommitSparesLocks(cfg, init, s, c, d, key);
    }
    TxnFrame(cfg, s.committed, after, s.txns[d]);
  }

  lemma CommitKeepsInv(cfg: Config, init: Tables, s: State, c: Client)
    requires Inv(cfg, init, s) && Do(cfg, s, Commit(c)).Some?
    ensures Inv(cfg, init, Do(cfg, s, Commit(c)).value)
  {
    SerialAppend(cfg, init, s.log, s.txns[c].pending);
    forall d | d in s.txns && d != c ensures TxnOk(cfg, WithRows(s.committed, s.txns[c].view), s.txns[d]) {
      OthersSurviveCommit(cfg, init, s, c, d);
    }
  }

  lemma StepKeepsInv(cfg: Config, init: Tables, s: State, step: Step)
    requires Inv(cfg, init, s) && Do(cfg, s, step).Some?
    ensures Inv(cfg, init, Do(cfg, s, step).value)
  {
    match step
    case Begin(c) =>
      assert TxnOk(cfg, s.committed, Txn(Idle, NOTHING, [], {}));
      PutOk(cfg, init, s, c, Txn(Idle, NOTHING, [], {}));
    case Check(c, op) => CheckKeepsInv(cfg, init, s, c, op);
    case Flush(c) => FlushKeepsInv(cfg, init, s, c);
    case Record(c) => RecordKeepsInv(cfg, init, s, c);
    case Commit(c) => CommitKeepsInv(cfg, init, s, c);
    case Abort(c) =>
  }

  lemma {:induction false} RunKeepsInv(cfg: Config, init: Tables, steps: seq<Step>)
    requires Run(cfg, Start(init), steps).Some?
    ensures Inv(cfg, init, Run(cfg, Start(init), steps).value)
  {
    if steps == [] {
      SerialEmpty(cfg, init);
    } else {
      RunKeepsInv(cfg, init, steps[..|steps| - 1]);
      StepKeepsInv(cfg, init, Run(cfg, Start(init), steps[..|steps| - 1]).value, steps[|steps| - 1]);
    }
  }

  // ---- the theorems -----------------------------------------------------------------

  /** Whatever the interleaving, the committed tables and all answers are those of one serial
      run of the answered writes. */
  lemma ConcurrentWritesAreSerial(cfg: Config, init: Tables, steps: seq<Step>)
    requires Run(cfg, Start(init), steps).Some?
    ensures var s := Run(cfg, Start(init), steps).value;
            s.committed == Serial(cfg, init, s.log) && Agrees(cfg, init, s.log)
  {
    RunKeepsInv(cfg, init, steps);
  }

  /** In every reachable state every fact has its revisions 1 to n, the row equals the last
      snapshot, and revision 1 alone is a create. */
  lemma ReachableHistoryOk(cfg: Config, init: Tables, steps: seq<Step>)
    requires HistoryOk(init) && Run(cfg, Start(init), steps).Some?
    ensures HistoryOk(Run(cfg, Start(init), steps).value.committed)
  {
    RunKeepsInv(cfg, init, steps);
    SerialKeepsHistory(cfg, init, Run(cfg, Start(init), steps).value.log);
  }

  /** In a reachable state neighbouring snapshots of a fact differ exactly when no accepted write
      stored the value that its fact already held; a write of which the columns keep everything
      never does. */
  lemma ReachableNeighboursDifferIff(cfg: Config, init: Tables, steps: seq<Step>)
    requires HistoryOk(init) && NeighboursDiffer(init) && Run(cfg, Start(init), steps).Some?
    ensures var s := Run(cfg, Start(init), steps).value;
            NeighboursDiffer(s.committed) <==> NoneRepeats(cfg, init, s.log)
    ensures var s := Run(cfg, Start(init), steps).value;
            forall i :: 0 <= i < |s.log| && RepeatsEntry(cfg, init, s.log, i) ==>
              StoredValue(s.log[i].op.p.value) != s.log[i].op.p.value
  {
    var s := Run(cfg, Start(init), steps).value;
    RunKeepsInv(cfg, init, steps);
    NeighboursDifferIff(cfg, init, s.log);
    forall i | 0 <= i < |s.log| && RepeatsEntry(cfg, init, s.log, i)
      ensures StoredValue(s.log[i].op.p.value) != s.log[i].op.p.value
    {
      if StoredValue(s.log[i].op.p.value) == s.log[i].op.p.value { UncutTextNeverRepeats(cfg, init, s.log, i); }
    }
  }

  lemma StepKeepsLog(cfg: Config, s: State, step: Step)
    requires Do(cfg, s, step).Some?
    ensures s.log <= Do(cfg, s, step).value.log
  {
  }

  /** The serial order respects real time: what took effect before a later part of a run comes before
      everything that this part adds, in particular before all writes of transactions that begin
      in it. */
  lemma {:induction false} LogOnlyGrows(cfg: Config, s: State, a: seq<Step>, b: seq<Step>)
    requires Run(cfg, s, a + b).Some?
    ensures Run(cfg, s, a).Some?
    ensures Run(cfg, s, a).value.log <= Run(cfg, s, a + b).value.log
  {
    if b == [] {
      assert a + b == a;
    } else {
      var more := a + b[..|b| - 1];
      assert (a + b)[..|a + b| - 1] == more;
      LogOnlyGrows(cfg, s, a, b[..|b| - 1]);
      StepKeepsLog(cfg, Run(cfg, s, more).value, b[|b| - 1]);
    }
  }

  /** No lost update, over every interleaving: each new revision k + 1 was made by an accepted
      write with base k, and no two accepted writes of a fact had the same base. */
  lemma NoLostUpdate(cfg: Config, init: Tables, steps: seq<Step>)
    requires Run(cfg, Start(init), steps).Some?
    ensures var s := Run(cfg, Start(init), steps).value;
            && (forall id :: id in s.committed.revisions && id !in init.revisions ==>
                  exists i :: 0 <= i < |s.log| && Made(s.log[i], id, s.committed.revisions[id]))
            && (forall i, j :: 0 <= i < j < |s.log| && Accepted(s.log[i]) && Accepted(s.log[j]) && Key(s.log[i]) == Key(s.log[j]) ==>
                  s.log[i].op.p.base < s.log[j].op.p.base)
  {
    var s := Run(cfg, Start(init), steps).value;
    RunKeepsInv(cfg, init, steps);
    forall id | id in s.committed.revisions && id !in init.revisions
      ensures exists i :: 0 <= i < |s.log| && Made(s.log[i], id, s.committed.revisions[id])
    {
      var i := RevisionsComeFromWrites(cfg, init, s.log, id);
    }
    forall i, j | 0 <= i < j < |s.log| && Accepted(s.log[i]) && Accepted(s.log[j]) && Key(s.log[i]) == Key(s.log[j])
      ensures s.log[i].op.p.base < s.log[j].op.p.base
    {
      BasesIncrease(cfg, init, s.log, i, j);
    }
  }

  /** A writer's commit: its tables grow by a serial run from the committed ones. */
  lemma CommitIsSerial(cfg: Config, init: Tables, s: State, c: Client)
    requires Inv(cfg, init, s) && Do(cfg, s, Commit(c)).Some?
    ensures Do(cfg, s, Commit(c)).value.committed == Serial(cfg, s.committed, s.txns[c].pending)
  {
  }

  /** Only a commit changes the committed tables: refused, unchanged and aborted writes leave them
      as they were. */
  lemma OnlyCommitsChange(cfg: Config, s: State, step: Step)
    requires Do(cfg, s, step).Some? && !step.Commit?
    ensures Do(cfg, s, step).value.committed == s.committed
  {
  }

  /** No step alters a committed revision, whatever the other transactions hold. */
  lemma RevisionsAreImmutable(cfg: Config, init: Tables, steps: seq<Step>, s: State, step: Step, id: RevisionId)
    requires HistoryOk(init) && Run(cfg, Start(init), steps) == Some(s)
    requires Do(cfg, s, step).Some?
    requires id in s.committed.revisions
    ensures id in Do(cfg, s, step).value.committed.revisions
    ensures Do(cfg, s, step).value.committed.revisions[id] == s.committed.revisions[id]
  {
    if step.Commit? {
      RunKeepsInv(cfg, init, steps);
      ReachableHistoryOk(cfg, init, steps);
      CommitIsSerial(cfg, init, s, step.c);
      SerialKeepsHistory(cfg, s.committed, s.txns[step.c].pending);
    } else {
      OnlyCommitsChange(cfg, s, step);
    }
  }

  lemma FlushedIdIsFree(cfg: Config, init: Tables, s: State, c: Client)
    requires Inv(cfg, init, s) && HistoryOk(s.committed)
    requires c in s.txns && s.txns[c].phase.Flushed?
    ensures RevisionIdOf(s.txns[c].phase.op.p, s.txns[c].phase.row) !in WithRows(s.committed, s.txns[c].view).revisions
  {
    var t := s.txns[c];
    SerialKeepsHistory(cfg, s.committed, t.pending);
    var seen := Serial(cfg, s.committed, t.pending);
    assert seen == WithRows(s.committed, t.phase.saved);
    NextRevisionIsFree(seen, t.phase.op.p.key);
    assert WithRows(s.committed, t.view).revisions == seen.revisions;
  }

  /** The columns take the revision and its citations. */
  predicate TextFits(p: Prepared) {
    RevisionFits(p) && CitationsFit(p.refs)
  }

  lemma FreeIdRecords(cfg: Config, s: State, c: Client)
    requires c in s.txns && s.txns[c].phase.Flushed? && TextFits(s.txns[c].phase.op.p)
    requires RevisionIdOf(s.txns[c].phase.op.p, s.txns[c].phase.row) !in WithRows(s.committed, s.txns[c].view).revisions
    ensures Do(cfg, s, Record(c)).Some?
  {
  }

  /** A revision number that a writer inserts is never taken: behind the row lock the unique index
      on (fact, revision) never refuses anything. */
  lemma RevisionIndexNeverRefuses(cfg: Config, init: Tables, steps: seq<Step>, s: State, c: Client)
    requires HistoryOk(init) && Run(cfg, Start(init), steps) == Some(s)
    requires c in s.txns && s.txns[c].phase.Flushed? && TextFits(s.txns[c].phase.op.p)
    ensures Do(cfg, s, Record(c)).Some?
  {
    RunKeepsInv(cfg, init, steps);
    ReachableHistoryOk(cfg, init, steps);
    FlushedIdIsFree(cfg, init, s, c);
    FreeIdRecords(cfg, s, c);
  }

  /** The loser of a create race: once another transaction has committed the key it saw as absent,
      its write can only abort, and the abort changes nothing. */
  lemma CreateRaceLoserAborts(cfg: Config, s: State, c: Client, step: Step)
    requires c in s.txns && s.txns[c].phase.Checked? && s.txns[c].phase.row.None?
    requires s.txns[c].phase.op.p.key in s.committed.facts
    requires step.c == c && Do(cfg, s, step).Some?
    ensures step == Abort(c)
    ensures Do(cfg, s, step).value.committed == s.committed
  {
  }
}
