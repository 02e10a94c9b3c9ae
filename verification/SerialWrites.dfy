/** Runs of fact writes one after another: the reference that the concurrent protocol is measured
    against. */
module SerialWrites {
  import opened Database
  import opened Facts

  /** A write with the clock reading and the sources that it sees at its turn. */
  datatype Op = Op(p: Prepared, now: nat, sources: map<string, bool>)

  /** A write with the answer its client got. */
  datatype Entry = Entry(op: Op, reply: Outcome<WriteAnswer>)

  function Key(e: Entry): string {
    e.op.p.key
  }

  ghost function Keys(es: seq<Entry>): set<string> {
    set i | 0 <= i < |es| :: Key(es[i])
  }

  function SerialReply(cfg: Config, t: Tables, op: Op): Outcome<WriteAnswer> {
    Reply(cfg, op.sources, op.p, RowOf(t, op.p.key), op.now)
  }

  /** What one write adds to the tables. */
  function Added(cfg: Config, t: Tables, op: Op): Tables {
    if IsWrite(SerialReply(cfg, t, op)) then Delta(cfg, op.p, RowOf(t, op.p.key), op.now) else NOTHING
  }

  /** What a serial run adds to the tables. */
  function SerialDelta(cfg: Config, t: Tables, es: seq<Entry>): Tables {
    if es == [] then NOTHING
    else
      var d := SerialDelta(cfg, t, es[..|es| - 1]);
      WithRows(d, Added(cfg, WithRows(t, d), es[|es| - 1].op))
  }

  /** The tables after a serial run. */
  function Serial(cfg: Config, t: Tables, es: seq<Entry>): Tables {
    WithRows(t, SerialDelta(cfg, t, es))
  }

  /** Every recorded answer is the one the serial run gives at its place. */
  predicate Agrees(cfg: Config, t: Tables, es: seq<Entry>) {
    es == [] ||
    (var before, last := es[..|es| - 1], es[|es| - 1];
     Agrees(cfg, t, before) && last.reply == SerialReply(cfg, Serial(cfg, t, before), last.op))
  }

  // ---- algebra ----------------------------------------------------------------------

  lemma NoRowsAdded(t: Tables)
    ensures WithRows(t, NOTHING) == t && WithRows(NOTHING, t) == t
  {
  }

  lemma RowsAssociate(a: Tables, b: Tables, c: Tables)
    ensures WithRows(WithRows(a, b), c) == WithRows(a, WithRows(b, c))
  {
    assert (a.facts + b.facts) + c.facts == a.facts + (b.facts + c.facts);
    assert (a.revisions + b.revisions) + c.revisions == a.revisions + (b.revisions + c.revisions);
    assert (a.citations + b.citations) + c.citations == a.citations + (b.citations + c.citations);
  }

  lemma SerialEmpty(cfg: Config, t: Tables)
    ensures Serial(cfg, t, []) == t
  {
    NoRowsAdded(t);
  }

  lemma SerialLast(cfg: Config, t: Tables, es: seq<Entry>, e: Entry)
    ensures SerialDelta(cfg, t, es + [e]) == WithRows(SerialDelta(cfg, t, es), Added(cfg, Serial(cfg, t, es), e.op))
    ensures Serial(cfg, t, es + [e]) == WithRows(Serial(cfg, t, es), Added(cfg, Serial(cfg, t, es), e.op))
    ensures Agrees(cfg, t, es + [e]) <==> Agrees(cfg, t, es) && e.reply == SerialReply(cfg, Serial(cfg, t, es), e.op)
  {
    assert (es + [e])[..|es|] == es;
    RowsAssociate(t, SerialDelta(cfg, t, es), Added(cfg, Serial(cfg, t, es), e.op));
  }

  lemma StepIsLocal(cfg: Config, t: Tables, u: Tables, d: Tables, op: Op)
    requires RowOf(t, op.p.key) == RowOf(u, op.p.key)
    ensures SerialReply(cfg, WithRows(t, d), op) == SerialReply(cfg, WithRows(u, d), op)
    ensures Added(cfg, WithRows(t, d), op) == Added(cfg, WithRows(u, d), op)
  {
    assert RowOf(WithRows(t, d), op.p.key) == RowOf(WithRows(u, d), op.p.key);
  }

  /** A run is the same wherever its own keys have the same rows. */
  lemma {:induction false} SerialIsLocal(cfg: Config, t: Tables, u: Tables, es: seq<Entry>)
    requires forall i :: 0 <= i < |es| ==> RowOf(t, Key(es[i])) == RowOf(u, Key(es[i]))
    ensures SerialDelta(cfg, t, es) == SerialDelta(cfg, u, es)
    ensures Agrees(cfg, t, es) <==> Agrees(cfg, u, es)
  {
    if es != [] {
      var before, e := es[..|es| - 1], es[|es| - 1];
      SerialIsLocal(cfg, t, u, before);
      StepIsLocal(cfg, t, u, SerialDelta(cfg, t, before), e.op);
    }
  }

  /** Runs compose. */
  lemma {:induction false} SerialAppend(cfg: Config, t: Tables, a: seq<Entry>, b: seq<Entry>)
    ensures Serial(cfg, t, a + b) == Serial(cfg, Serial(cfg, t, a), b)
    ensures Agrees(cfg, t, a + b) <==> Agrees(cfg, t, a) && Agrees(cfg, Serial(cfg, t, a), b)
  {
    if b == [] {
      assert a + b == a;
      SerialEmpty(cfg, Serial(cfg, t, a));
    } else {
      var before, e := b[..|b| - 1], b[|b| - 1];
      SerialAppend(cfg, t, a, before);
      assert a + b == (a + before) + [e] && b == before + [e];
      SerialLast(cfg, t, a + before, e);
      SerialLast(cfg, Serial(cfg, t, a), before, e);
    }
  }

  /** A run only adds rows of its own keys. */
  lemma {:induction false} SerialKeys(cfg: Config, t: Tables, es: seq<Entry>)
    ensures forall k :: k in SerialDelta(cfg, t, es).facts ==> k in Keys(es)
  {
    if es != [] {
      var before, e := es[..|es| - 1], es[|es| - 1];
      SerialKeys(cfg, t, before);
      assert es == before + [e];
      forall k | k in SerialDelta(cfg, t, es).facts ensures k in Keys(es) {
        if k in Keys(before) {
          var i :| 0 <= i < |before| && Key(before[i]) == k;
          assert Key(es[i]) == k;
        } else {
          assert Key(es[|es| - 1]) == k;
        }
      }
    }
  }

  // ---- what every run keeps ---------------------------------------------------------

  lemma GoMeans(cfg: Config, t: Tables, op: Op)
    requires IsWrite(SerialReply(cfg, t, op))
    ensures Decide(op.sources, op.p, RowOf(t, op.p.key)) == Go
    ensures op.p.base == Current(RowOf(t, op.p.key))
  {
  }

  /** One write keeps the histories and takes a free revision number. */
  lemma OneWrite(cfg: Config, t: Tables, op: Op)
    requires HistoryOk(t)
    ensures HistoryOk(WithRows(t, Added(cfg, t, op)))
    ensures forall id :: id in Added(cfg, t, op).revisions ==> id !in t.revisions
  {
    if IsWrite(SerialReply(cfg, t, op)) {
      GoMeans(cfg, t, op);
      WriteKeepsHistory(cfg, op.sources, t, op.p, op.now);
      NextRevisionIsFree(t, op.p.key);
    } else {
      NoRowsAdded(t);
    }
  }

  /** A run keeps the histories in order and never alters a revision. */
  lemma {:induction false} SerialKeepsHistory(cfg: Config, t: Tables, es: seq<Entry>)
    requires HistoryOk(t)
    ensures HistoryOk(Serial(cfg, t, es))
    ensures forall id :: id in t.revisions ==>
              id in Serial(cfg, t, es).revisions && Serial(cfg, t, es).revisions[id] == t.revisions[id]
  {
    if es == [] {
      SerialEmpty(cfg, t);
    } else {
      var before, e := es[..|es| - 1], es[|es| - 1];
      SerialKeepsHistory(cfg, t, before);
      assert es == before + [e];
      SerialLast(cfg, t, before, e);
      OneWrite(cfg, Serial(cfg, t, before), e.op);
    }
  }

  lemma OneWriteCounts(cfg: Config, t: Tables, op: Op, key: string)
    ensures Current(RowOf(t, key)) <= Current(RowOf(WithRows(t, Added(cfg, t, op)), key))
  {
    NoRowsAdded(t);
  }

  /** Revision numbers never go back. */
  lemma {:induction false} RevisionsGrow(cfg: Config, t: Tables, a: seq<Entry>, b: seq<Entry>, key: string)
    ensures Current(RowOf(Serial(cfg, t, a), key)) <= Current(RowOf(Serial(cfg, t, a + b), key))
  {
    if b == [] {
      assert a + b == a;
    } else {
      var before, e := b[..|b| - 1], b[|b| - 1];
      RevisionsGrow(cfg, t, a, before, key);
      assert a + b == (a + before) + [e];
      SerialLast(cfg, t, a + before, e);
      OneWriteCounts(cfg, Serial(cfg, t, a + before), e.op, key);
    }
  }

  /** The answer at position `i` of an agreeing run. */
  lemma {:induction false} AgreesAt(cfg: Config, t: Tables, es: seq<Entry>, i: nat)
    requires Agrees(cfg, t, es) && i < |es|
    ensures es[i].reply == SerialReply(cfg, Serial(cfg, t, es[..i]), es[i].op)
  {
    if i < |es| - 1 {
      AgreesAt(cfg, t, es[..|es| - 1], i);
      assert es[..|es| - 1][..i] == es[..i];
    }
  }

  /** A write that was accepted and recorded as such. */
  predicate Accepted(e: Entry) {
    IsWrite(e.reply)
  }

  lemma AcceptedOn(cfg: Config, t: Tables, e: Entry)
    requires e.reply == SerialReply(cfg, t, e.op) && Accepted(e)
    ensures e.op.p.base == Current(RowOf(t, Key(e)))
    ensures Current(RowOf(WithRows(t, Added(cfg, t, e.op)), Key(e))) == e.op.p.base + 1
  {
    GoMeans(cfg, t, e.op);
  }

  lemma FirstOnes(es: seq<Entry>, i: nat, j: nat)
    requires i <= j <= |es|
    ensures es[..i] + es[i..j] == es[..j]
    ensures i < j ==> es[..i + 1] == es[..i] + [es[i]]
  {
  }

  lemma AcceptedAt(cfg: Config, t: Tables, es: seq<Entry>, i: nat)
    requires Agrees(cfg, t, es) && i < |es| && Accepted(es[i])
    ensures es[i].op.p.base == Current(RowOf(Serial(cfg, t, es[..i]), Key(es[i])))
    ensures Current(RowOf(Serial(cfg, t, es[..i + 1]), Key(es[i]))) == es[i].op.p.base + 1
  {
    AgreesAt(cfg, t, es, i);
    var u := Serial(cfg, t, es[..i]);
    AcceptedOn(cfg, u, es[i]);
    FirstOnes(es, i, i + 1);
    SerialLast(cfg, t, es[..i], es[i]);
  }

  lemma CountsGrow(cfg: Config, t: Tables, es: seq<Entry>, i: nat, j: nat, key: string)
    requires i <= j <= |es|
    ensures Current(RowOf(Serial(cfg, t, es[..i]), key)) <= Current(RowOf(Serial(cfg, t, es[..j]), key))
  {
    FirstOnes(es, i, j);
    RevisionsGrow(cfg, t, es[..i], es[i..j], key);
  }

  /** No lost update: of two accepted writes of a fact, the later one had the later base, so
      writers with the same base commit at most one revision. */
  lemma BasesIncrease(cfg: Config, t: Tables, es: seq<Entry>, i: nat, j: nat)
    requires Agrees(cfg, t, es) && i < j < |es|
    requires Accepted(es[i]) && Accepted(es[j]) && Key(es[i]) == Key(es[j])
    ensures es[i].op.p.base < es[j].op.p.base
  {
    AcceptedAt(cfg, t, es, i);
    AcceptedAt(cfg, t, es, j);
    CountsGrow(cfg, t, es, i + 1, j, Key(es[i]));
  }

  /** This write made this revision. */
  predicate Made(e: Entry, id: RevisionId, r: Revision) {
    Accepted(e) && Key(e) == id.key && e.op.p.base == id.number - 1 && r == NewRevision(e.op.p, e.op.now)
  }

  lemma AddedRevisionMade(cfg: Config, t: Tables, e: Entry, id: RevisionId)
    requires e.reply == SerialReply(cfg, t, e.op)
    requires id in Added(cfg, t, e.op).revisions
    ensures Made(e, id, WithRows(t, Added(cfg, t, e.op)).revisions[id])
  {
    GoMeans(cfg, t, e.op);
  }

  lemma OldRevisionStays(cfg: Config, t: Tables, op: Op, id: RevisionId)
    requires id in WithRows(t, Added(cfg, t, op)).revisions && id !in Added(cfg, t, op).revisions
    ensures id in t.revisions && WithRows(t, Added(cfg, t, op)).revisions[id] == t.revisions[id]
  {
  }

  /** Every new revision k + 1 came from an accepted write that had read revision k. */
  lemma {:induction false} RevisionsComeFromWrites(cfg: Config, t: Tables, es: seq<Entry>, id: RevisionId) returns (i: nat)
    requires Agrees(cfg, t, es)
    requires id in Serial(cfg, t, es).revisions && id !in t.revisions
    ensures i < |es| && Made(es[i], id, Serial(cfg, t, es).revisions[id])
  {
    if es == [] {
      SerialEmpty(cfg, t);
    } else {
      i := |es| - 1;
      var before, e := es[..i], es[i];
      assert es == before + [e];
      SerialLast(cfg, t, before, e);
      var u := Serial(cfg, t, before);
      if id in Added(cfg, u, e.op).revisions {
        AddedRevisionMade(cfg, u, e, id);
      } else {
        OldRevisionStays(cfg, u, e.op, id);
        i := RevisionsComeFromWrites(cfg, t, before, id);
      }
    }
  }

  // ---- repeated snapshots over runs -------------------------------------------------

  /** The accepted write at position `i` stores the value that its fact already holds. */
  predicate RepeatsEntry(cfg: Config, t: Tables, es: seq<Entry>, i: nat)
    requires i < |es|
  {
    Accepted(es[i]) && RepeatsRow(es[i].op.p, RowOf(Serial(cfg, t, es[..i]), Key(es[i])))
  }

  lemma OneWriteNeighbours(cfg: Config, t: Tables, e: Entry)
    requires HistoryOk(t) && e.reply == SerialReply(cfg, t, e.op)
    ensures NeighboursDiffer(WithRows(t, Added(cfg, t, e.op)))
            <==> NeighboursDiffer(t) && !(Accepted(e) && RepeatsRow(e.op.p, RowOf(t, Key(e))))
  {
    if Accepted(e) { WriteKeepsNeighboursIff(cfg, t, e.op.p, e.op.now); } else { NoRowsAdded(t); }
  }

  ghost predicate NoneRepeats(cfg: Config, t: Tables, es: seq<Entry>) {
    forall i :: 0 <= i < |es| ==> !RepeatsEntry(cfg, t, es, i)
  }

  lemma RepeatsEntryIn(cfg: Config, t: Tables, before: seq<Entry>, e: Entry, i: nat)
    requires i <= |before|
    ensures RepeatsEntry(cfg, t, before + [e], i)
            <==> if i < |before| then RepeatsEntry(cfg, t, before, i)
                 else Accepted(e) && RepeatsRow(e.op.p, RowOf(Serial(cfg, t, before), Key(e)))
  {
    assert (before + [e])[..i] == before[..i];
    assert before[..|before|] == before;
  }

  lemma NoneRepeatsMore(cfg: Config, t: Tables, before: seq<Entry>, e: Entry)
    ensures NoneRepeats(cfg, t, before + [e])
            <==> NoneRepeats(cfg, t, before) && !(Accepted(e) && RepeatsRow(e.op.p, RowOf(Serial(cfg, t, before), Key(e))))
  {
    forall i | 0 <= i <= |before| { RepeatsEntryIn(cfg, t, before, e, i); }
    if NoneRepeats(cfg, t, before + [e]) {
      assert !RepeatsEntry(cfg, t, before + [e], |before|);
      forall i | 0 <= i < |before| ensures !RepeatsEntry(cfg, t, before, i) { assert !RepeatsEntry(cfg, t, before + [e], i); }
    }
  }

  /** Over a serial run neighbouring snapshots stay different exactly when no accepted write stores
      the value that its fact already holds. */
  lemma {:induction false} NeighboursDifferIff(cfg: Config, t: Tables, es: seq<Entry>)
    requires HistoryOk(t) && Agrees(cfg, t, es)
    ensures NeighboursDiffer(Serial(cfg, t, es)) <==> NeighboursDiffer(t) && NoneRepeats(cfg, t, es)
  {
    if es == [] {
      SerialEmpty(cfg, t);
    } else {
      var before, e := es[..|es| - 1], es[|es| - 1];
      assert es == before + [e];
      NeighboursDifferIff(cfg, t, before);
      SerialKeepsHistory(cfg, t, before);
      SerialLast(cfg, t, before, e);
      OneWriteNeighbours(cfg, Serial(cfg, t, before), e);
      NoneRepeatsMore(cfg, t, before, e);
    }
  }

  /** A write whose columns keep all of its value is no such write. */
  lemma UncutTextNeverRepeats(cfg: Config, t: Tables, es: seq<Entry>, i: nat)
    requires Agrees(cfg, t, es) && i < |es| && StoredValue(es[i].op.p.value) == es[i].op.p.value
    ensures !RepeatsEntry(cfg, t, es, i)
  {
    if RepeatsEntry(cfg, t, es, i) {
      AgreesAt(cfg, t, es, i);
      GoMeans(cfg, Serial(cfg, t, es[..i]), es[i].op);
      OnlyCutTextRepeats(es[i].op.sources, es[i].op.p, RowOf(Serial(cfg, t, es[..i]), Key(es[i])));
    }
  }
}
