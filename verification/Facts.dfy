/** What one fact write means: the checks before the lock, the verdict on the locked row, and the
    rows a committed write adds. */
module Facts {
  import opened Wrappers
  import opened Text
  import opened KeyTemplates
  import opened Namespaces
  import opened Database
  import opened RawEvents

  datatype SourceArg = SourceArg(sourceKey: Option<string>, url: Option<string>, rawEvent: Option<string>,
                                 sourceHash: Option<string>)
                     | NotAnObject

  datatype WriteRequest = WriteRequest(changeType: string, title: string, summary: string, content: string,
                                       reason: string, baseRevision: int, factKey: Option<string>,
                                       namespace: Option<string>, parts: map<string, string>,
                                       sources: seq<SourceArg>, kind: Option<string>, status: Option<string>,
                                       attrs: Option<Attrs>)

  datatype SourceRef = SourceRef(sourceKey: string, url: Option<string>, rawEvent: Option<string>, sourceHash: Option<string>)

  /** A request that passed every check that needs no lock. */
  datatype Prepared = Prepared(key: string, namespace: string, defaultKind: Kind, change: Change, value: Value,
                               reason: string, refs: seq<SourceRef>, base: int, kind: Option<string>)

  const SUMMARY_MAX: nat := 280

  // ---- before the lock --------------------------------------------------------------

  /** A request names its key, or a namespace to build it from; the namespace is looked up by name. */
  function KeySpec(cfg: Config, rows: Rows, req: WriteRequest): Outcome<string> {
    var key, ns := Given(req.factKey), Given(req.namespace);
    if key.Some? && ns.Some? then Refused(Invalid)
    else if ns.Some? then
      var name := Lower(Strip(ns.value));
      if !Storable(name) then Crashed
      else if name !in rows then Refused(NotFound)
      else
        match Build(cfg.fold, name, rows[name].template, req.parts)
        case Err(e) => Refused(TemplateRefusal(e))
        case Ok(built) => Done(built)
    else AsOutcome(RequireText(if key.Some? then key.value else ""))
  }

  method ResolveKey(session: Session, cfg: Config, req: WriteRequest) returns (r: Outcome<string>)
    requires NamespacesOk(session.db.namespaces)
    ensures r == KeySpec(cfg, session.db.namespaces, req)
  {
    var key, ns := Given(req.factKey), Given(req.namespace);
    if key.Some? && ns.Some? { return Refused(Invalid); }
    if ns.Some? {
      var name := Lower(Strip(ns.value));
      if !Storable(name) { return Crashed; }
      if name !in session.db.namespaces { return Refused(NotFound); }
      var built := BuildKey(cfg.fold, name, session.db.namespaces[name].template, req.parts);
      return if built.Ok? then Done(built.value) else Refused(TemplateRefusal(built.error));
    }
    r := AsOutcome(RequireText(if key.Some? then key.value else ""));
  }

  function RefOf(cfg: Config, a: SourceArg): SourceRef
    requires a.SourceArg?
  {
    var url := Given(a.url);
    SourceRef(SourceKeyOf(a.sourceKey), if url.Some? then Some(cfg.redactKnown(url.value)) else None,
              Given(a.rawEvent), Given(a.sourceHash))
  }

  /** Field checks, in the order the service makes them. */
  function PrepareFields(cfg: Config, req: WriteRequest, key: string, ns: string, defaultKind: Kind): Result<Prepared, Refusal> {
    if ParseChange(req.changeType).None? || Strip(req.title) == "" || Strip(req.summary) == "" then Err(Invalid)
    else
      var title, summary := cfg.redactKnown(Strip(req.title)), cfg.redactKnown(Strip(req.summary));
      var content, reason := cfg.redactKnown(Strip(req.content)), cfg.redactKnown(Strip(req.reason));
      if |summary| > SUMMARY_MAX || Strip(req.content) == "" || |content| > cfg.maxTextChars || Strip(req.reason) == "" then Err(Invalid)
      else if exists i :: 0 <= i < |req.sources| && req.sources[i].NotAnObject? then Err(Invalid)
      else
        var attrs := if req.attrs.Some? && req.attrs.value != map[] then Some(cfg.redactAttrs(req.attrs.value)) else req.attrs;
        var refs := seq(|req.sources|, i requires 0 <= i < |req.sources| && req.sources[i].SourceArg? => RefOf(cfg, req.sources[i]));
        Ok(Prepared(key, ns, defaultKind, ParseChange(req.changeType).value,
                    Value(title, summary, content, req.status, attrs), reason, refs, req.baseRevision, Given(req.kind)))
  }

  function Prepare(cfg: Config, rows: Rows, req: WriteRequest): Outcome<Prepared> {
    match KeySpec(cfg, rows, req)
    case Refused(e) => Refused(e)
    case Crashed => Crashed
    case Done(key) =>
      match ValidateKey(rows, key)
      case Refused(e) => Refused(e)
      case Crashed => Crashed
      case Done(ns) => AsOutcome(PrepareFields(cfg, req, key, ns, if ns in rows then rows[ns].defaultKind else Fact))
  }

  // ---- the verdict on the locked row ------------------------------------------------

  /** Empty attributes and no attributes are the same. */
  function Attributes(a: Option<Attrs>): Attrs {
    if a.Some? then a.value else map[]
  }

  /** `_same_value`: the kind is not compared. */
  predicate SameValue(a: Value, b: Value) {
    && a.title == b.title && a.summary == b.summary && a.content == b.content && a.status == b.status
    && Attributes(a.attrs) == Attributes(b.attrs)
  }

  function View(key: string, ns: string, row: FactRow): FactView {
    FactView(key, ns, row.kind, row.revision, row.value.status, row.value.title, row.value.summary,
             SanitizeAndTruncate(row.value.content), row.value.attrs)
  }

  function Current(row: Option<FactRow>): nat {
    if row.Some? then row.value.revision else 0
  }

  /** `Fail` is a database error. */
  datatype Verdict = Refuse(error: Refusal) | Same | Go | Fail

  /** The lookups of the sources, one after another. */
  function FindSources(sources: map<string, bool>, refs: seq<SourceRef>): Outcome<()> {
    if refs == [] then Done(())
    else
      match FindSource(sources, refs[0].sourceKey)
      case Refused(e) => Refused(e)
      case Crashed => Crashed
      case Done(_) => FindSources(sources, refs[1..])
  }

  /** Everything between the lock and the first flush. */
  function Decide(sources: map<string, bool>, p: Prepared, row: Option<FactRow>): Verdict {
    if p.base != Current(row)
    then Refuse(Conflict(Current(row), if row.Some? then Some(View(p.key, p.namespace, row.value)) else None))
    else if row.None? != (p.change == Create) then Refuse(Invalid)
    else if row.Some? && SameValue(row.value.value, p.value) then Same
    else
      match FindSources(sources, p.refs)
      case Refused(e) => Refuse(e)
      case Crashed => Fail
      case Done(_) => if p.kind.Some? && ParseKind(p.kind.value).None? then Refuse(Invalid) else Go
  }

  // ---- the rows of a write ----------------------------------------------------------

  /** The row as the service builds it. */
  function NewRow(p: Prepared, row: Option<FactRow>, now: nat): FactRow {
    var kind := if p.kind.Some? && ParseKind(p.kind.value).Some? then ParseKind(p.kind.value).value
                else if row.Some? then row.value.kind else p.defaultKind;
    match row
    case None => FactRow(p.namespace, kind, 1, p.value, now, now)
    case Some(f) => f.(kind := kind, revision := f.revision + 1, value := p.value, updatedAt := now)
  }

  const KEY_WIDTH: nat := 512
  const TITLE_WIDTH: nat := 512
  const STATUS_WIDTH: nat := 32

  /** The value as its columns keep it. */
  function StoredValue(v: Value): Value {
    v.(title := Cut(v.title, TITLE_WIDTH), summary := Cut(v.summary, SUMMARY_MAX),
       status := if v.status.Some? then Some(Cut(v.status.value, STATUS_WIDTH)) else None)
  }

  /** The row as the table keeps it. */
  function StoredRow(p: Prepared, row: Option<FactRow>, now: nat): FactRow {
    NewRow(p, row, now).(value := StoredValue(p.value))
  }

  function NewRevision(p: Prepared, now: nat): Revision {
    Revision(p.change, p.reason, StoredValue(p.value), now)
  }

  function RevisionIdOf(p: Prepared, row: Option<FactRow>): RevisionId {
    RevisionId(p.key, Current(row) + 1)
  }

  function EventOf(cfg: Config, ref: SourceRef): Option<EventId> {
    if ref.rawEvent.Some? then cfg.parseUuid(ref.rawEvent.value) else None
  }

  predicate BadUuid(cfg: Config, ref: SourceRef) {
    ref.rawEvent.Some? && cfg.parseUuid(ref.rawEvent.value).None?
  }

  function CitationOf(cfg: Config, id: RevisionId, ref: SourceRef): Citation {
    Citation(id, ref.sourceKey, ref.url, EventOf(cfg, ref),
             if ref.sourceHash.Some? then Some(Cut(ref.sourceHash.value, HASH_WIDTH)) else None)
  }

  function Citations(cfg: Config, id: RevisionId, refs: seq<SourceRef>): (cs: seq<Citation>)
    ensures |cs| == |refs|
  {
    seq(|refs|, i requires 0 <= i < |refs| => CitationOf(cfg, id, refs[i]))
  }

  /** The columns of a fact take the row. Nothing checks this before the database does. A key is
      trimmed, so none of it can be cut. */
  predicate RowFits(p: Prepared) {
    && Storable(p.key) && |p.key| <= KEY_WIDTH
    && Fits(p.value.title, TITLE_WIDTH) && Fits(p.value.summary, SUMMARY_MAX) && Storable(p.value.content)
    && (p.value.status.Some? ==> Fits(p.value.status.value, STATUS_WIDTH))
    && (p.value.attrs.Some? ==> StorableAttrs(p.value.attrs.value))
  }

  /** A revision has the reason besides. */
  predicate RevisionFits(p: Prepared) {
    Storable(p.reason)
  }

  predicate RefFits(ref: SourceRef) {
    && (ref.url.Some? ==> Storable(ref.url.value))
    && (ref.sourceHash.Some? ==> Fits(ref.sourceHash.value, HASH_WIDTH))
  }

  predicate CitationsFit(refs: seq<SourceRef>) {
    forall i :: 0 <= i < |refs| ==> RefFits(refs[i])
  }

  const NOTHING := Tables(map[], map[], [])

  /** Rows added to tables; on a clash the added row wins. */
  function WithRows(t: Tables, d: Tables): Tables {
    Tables(t.facts + d.facts, t.revisions + d.revisions, t.citations + d.citations)
  }

  function Delta(cfg: Config, p: Prepared, row: Option<FactRow>, now: nat): Tables {
    var id := RevisionIdOf(p, row);
    Tables(map[p.key := StoredRow(p, row, now)], map[id := NewRevision(p, now)], Citations(cfg, id, p.refs))
  }

  function RowOf(t: Tables, key: string): Option<FactRow> {
    if key in t.facts then Some(t.facts[key]) else None
  }

  // ---- one write on its own ---------------------------------------------------------

  datatype WriteAnswer = Unchanged(fact: FactView) | Wrote(change: Change, fact: FactView)

  predicate AnyBadUuid(cfg: Config, refs: seq<SourceRef>) {
    exists i :: 0 <= i < |refs| && BadUuid(cfg, refs[i])
  }

  /** What the service answers when nobody interferes. An unreadable event id is only noticed
      after the fact and its revision were flushed. */
  function Reply(cfg: Config, sources: map<string, bool>, p: Prepared, row: Option<FactRow>, now: nat): Outcome<WriteAnswer> {
    match Decide(sources, p, row)
    case Refuse(e) => Refused(e)
    case Fail => Crashed
    case Same => Done(Unchanged(View(p.key, p.namespace, if row.Some? then row.value else NewRow(p, row, now))))
    case Go =>
      if AnyBadUuid(cfg, p.refs) then Refused(Invalid)
      else Done(Wrote(p.change, View(p.key, p.namespace, NewRow(p, row, now))))
  }

  predicate IsWrite(reply: Outcome<WriteAnswer>) {
    reply.Done? && reply.value.Wrote?
  }

  predicate IsConflict(reply: Outcome<WriteAnswer>) {
    reply.Refused? && reply.error.Conflict?
  }

  lemma {:induction false} SourcesNeverConflict(sources: map<string, bool>, refs: seq<SourceRef>)
    ensures FindSources(sources, refs).Refused? ==> FindSources(sources, refs).error == NotFound
  {
    if refs != [] { SourcesNeverConflict(sources, refs[1..]); }
  }

  /** A conflict hands out the stored revision, and that is the one base that no longer conflicts. */
  lemma ConflictTellsTheBase(cfg: Config, sources: map<string, bool>, p: Prepared, row: Option<FactRow>, now: nat, base: int)
    requires IsConflict(Reply(cfg, sources, p, row, now))
    ensures var current := Reply(cfg, sources, p, row, now).error.current;
            IsConflict(Reply(cfg, sources, p.(base := base), row, now)) <==> base != current
    ensures var fact := Reply(cfg, sources, p, row, now).error.fact;
            match row
            case None => fact == None
            case Some(f) => fact.Some? && fact.value.revision == f.revision && fact.value.title == f.value.title
  {
    SourcesNeverConflict(sources, p.refs);
  }

  /** Writing a value again, on top of its own revision, is no new revision exactly when its columns
      kept all of it, whatever kind is asked for. */
  lemma WriteTwiceIsOnceIff(sources: map<string, bool>, p: Prepared, q: Prepared, row: Option<FactRow>, now: nat)
    requires Decide(sources, p, row) == Go
    requires q.value == p.value && q.base == Current(row) + 1 && q.change != Create
    ensures Decide(sources, q, Some(StoredRow(p, row, now))) == Same <==> StoredValue(p.value) == p.value
  {
  }

  // ---- history ----------------------------------------------------------------------

  /** The history of one fact: revisions 1 to the current one and no others, the row equals the
      last snapshot, and revision 1 alone is a create. */
  ghost predicate FactOk(t: Tables, key: string)
    requires key in t.facts
  {
    var f := t.facts[key];
    && f.revision >= 1
    && (forall n: nat :: RevisionId(key, n) in t.revisions <==> 1 <= n <= f.revision)
    && t.revisions[RevisionId(key, f.revision)].value == f.value
    && (forall n: nat :: 1 <= n <= f.revision ==> (t.revisions[RevisionId(key, n)].change == Create <==> n == 1))
  }

  ghost predicate HistoryOk(t: Tables) {
    && (forall key :: key in t.facts ==> FactOk(t, key))
    && (forall id :: id in t.revisions ==> id.key in t.facts)
    && (forall i :: 0 <= i < |t.citations| ==> t.citations[i].revision in t.revisions)
  }

  /** The revision number of an accepted write is free: the unique index on it never fires. */
  lemma NextRevisionIsFree(t: Tables, key: string)
    requires HistoryOk(t)
    ensures RevisionId(key, Current(RowOf(t, key)) + 1) !in t.revisions
    ensures key !in t.facts ==> forall n: nat :: RevisionId(key, n) !in t.revisions
  {
    forall n: nat | key !in t.facts ensures RevisionId(key, n) !in t.revisions {
      assert RevisionId(key, n).key == key;
    }
  }

  lemma OtherFactOk(t: Tables, d: Tables, key: string)
    requires HistoryOk(t) && key in t.facts && key !in d.facts
    requires forall id :: id in d.revisions ==> id.key in d.facts
    ensures FactOk(WithRows(t, d), key)
  {
    assert FactOk(t, key);
    forall n: nat ensures RevisionId(key, n) in WithRows(t, d).revisions <==> RevisionId(key, n) in t.revisions {
      assert RevisionId(key, n).key == key;
    }
  }

  /** Appending one snapshot to an ordered history. */
  lemma ExtendedFactOk(t: Tables, u: Tables, key: string, next: Revision)
    requires key in t.facts ==> FactOk(t, key)
    requires key in u.facts && u.facts[key].revision == Current(RowOf(t, key)) + 1 && u.facts[key].value == next.value
    requires forall n: nat ::
               RevisionId(key, n) in u.revisions <==> 1 <= n <= Current(RowOf(t, key)) + 1
    requires forall n: nat :: 1 <= n <= Current(RowOf(t, key)) ==> u.revisions[RevisionId(key, n)] == t.revisions[RevisionId(key, n)]
    requires u.revisions[RevisionId(key, Current(RowOf(t, key)) + 1)] == next
    requires next.change == Create <==> key !in t.facts
    ensures FactOk(u, key)
  {
  }

  lemma WrittenFactOk(cfg: Config, t: Tables, p: Prepared, row: Option<FactRow>, now: nat)
    requires row == RowOf(t, p.key)
    requires if p.key in t.facts then FactOk(t, p.key) else forall n: nat :: RevisionId(p.key, n) !in t.revisions
    requires p.change == Create <==> row.None?
    ensures FactOk(WithRows(t, Delta(cfg, p, row, now)), p.key)
  {
    var u := WithRows(t, Delta(cfg, p, row, now));
    AddedRevision(t, u, p.key, NewRevision(p, now));
    ExtendedFactOk(t, u, p.key, NewRevision(p, now));
  }

  lemma AddedRevision(t: Tables, u: Tables, key: string, next: Revision)
    requires if key in t.facts then FactOk(t, key) else forall n: nat :: RevisionId(key, n) !in t.revisions
    requires u.revisions == t.revisions + map[RevisionId(key, Current(RowOf(t, key)) + 1) := next]
    ensures forall n: nat ::
              RevisionId(key, n) in u.revisions <==> 1 <= n <= Current(RowOf(t, key)) + 1
    ensures forall n: nat :: 1 <= n <= Current(RowOf(t, key)) ==> u.revisions[RevisionId(key, n)] == t.revisions[RevisionId(key, n)]
    ensures u.revisions[RevisionId(key, Current(RowOf(t, key)) + 1)] == next
  {
  }

  lemma CitationsKeep(t: Tables, d: Tables)
    requires forall i :: 0 <= i < |t.citations| ==> t.citations[i].revision in t.revisions
    requires forall i :: 0 <= i < |d.citations| ==> d.citations[i].revision in d.revisions
    ensures forall i :: 0 <= i < |WithRows(t, d).citations| ==> WithRows(t, d).citations[i].revision in WithRows(t, d).revisions
  {
  }

  lemma GoIsNew(sources: map<string, bool>, p: Prepared, row: Option<FactRow>)
    requires Decide(sources, p, row) == Go
    ensures p.change == Create <==> row.None?
    ensures row.Some? ==> !SameValue(row.value.value, p.value)
  {
  }

  /** An accepted write keeps every history in order. */
  lemma WriteKeepsHistory(cfg: Config, sources: map<string, bool>, t: Tables, p: Prepared, now: nat)
    requires HistoryOk(t)
    requires Decide(sources, p, RowOf(t, p.key)) == Go
    ensures HistoryOk(WithRows(t, Delta(cfg, p, RowOf(t, p.key), now)))
  {
    var d := Delta(cfg, p, RowOf(t, p.key), now);
    GoIsNew(sources, p, RowOf(t, p.key));
    NextRevisionIsFree(t, p.key);
    WrittenFactOk(cfg, t, p, RowOf(t, p.key), now);
    forall key | key in t.facts && key != p.key ensures FactOk(WithRows(t, d), key) {
      OtherFactOk(t, d, key);
    }
    CitationsKeep(t, d);
  }

  // ---- repeated snapshots -----------------------------------------------------------

  /** A revision has the same value as the one after it. */
  ghost predicate RepeatsAt(t: Tables, key: string, n: nat) {
    && RevisionId(key, n) in t.revisions && RevisionId(key, n + 1) in t.revisions
    && SameValue(t.revisions[RevisionId(key, n)].value, t.revisions[RevisionId(key, n + 1)].value)
  }

  ghost predicate NeighboursDiffer(t: Tables) {
    forall key, n: nat :: !RepeatsAt(t, key, n)
  }

  /** The columns would keep the value that they already hold. */
  predicate RepeatsRow(p: Prepared, row: Option<FactRow>) {
    row.Some? && SameValue(row.value.value, StoredValue(p.value))
  }

  /** Only a value of which the columns keep a part can pass the comparison and then repeat. */
  lemma OnlyCutTextRepeats(sources: map<string, bool>, p: Prepared, row: Option<FactRow>)
    requires Decide(sources, p, row) == Go && RepeatsRow(p, row)
    ensures StoredValue(p.value) != p.value
  {
  }

  lemma OldNeighbours(cfg: Config, t: Tables, p: Prepared, now: nat, key: string, n: nat)
    requires HistoryOk(t)
    requires key != p.key || n != Current(RowOf(t, p.key))
    ensures RepeatsAt(WithRows(t, Delta(cfg, p, RowOf(t, p.key), now)), key, n) <==> RepeatsAt(t, key, n)
  {
    var last := Current(RowOf(t, p.key));
    NextRevisionIsFree(t, p.key);
    assert key == p.key && n == last + 1 ==> RevisionId(key, n + 1) !in t.revisions by {
      if key in t.facts { assert FactOk(t, key); }
    }
    assert RevisionId(key, n) == RevisionId(p.key, last + 1) ==> key == p.key && n == last + 1;
    assert RevisionId(key, n + 1) == RevisionId(p.key, last + 1) ==> key == p.key && n == last;
  }

  lemma NewNeighbours(cfg: Config, t: Tables, p: Prepared, now: nat)
    requires HistoryOk(t)
    ensures RepeatsAt(WithRows(t, Delta(cfg, p, RowOf(t, p.key), now)), p.key, Current(RowOf(t, p.key)))
            <==> RepeatsRow(p, RowOf(t, p.key))
  {
    NextRevisionIsFree(t, p.key);
    if p.key in t.facts { assert FactOk(t, p.key); }
  }

  /** A write keeps neighbouring snapshots different exactly when its columns would not keep the
      value that they already hold. */
  lemma WriteKeepsNeighboursIff(cfg: Config, t: Tables, p: Prepared, now: nat)
    requires HistoryOk(t)
    ensures NeighboursDiffer(WithRows(t, Delta(cfg, p, RowOf(t, p.key), now)))
            <==> NeighboursDiffer(t) && !RepeatsRow(p, RowOf(t, p.key))
  {
    var u, last := WithRows(t, Delta(cfg, p, RowOf(t, p.key), now)), Current(RowOf(t, p.key));
    NewNeighbours(cfg, t, p, now);
    NextRevisionIsFree(t, p.key);
    forall key, n: nat | key != p.key || n != last ensures RepeatsAt(u, key, n) <==> RepeatsAt(t, key, n) {
      OldNeighbours(cfg, t, p, now, key, n);
    }
    assert !RepeatsAt(t, p.key, last);
    if NeighboursDiffer(u) {
      forall key, n: nat ensures !RepeatsAt(t, key, n) {
        assert !RepeatsAt(u, key, n);
      }
    }
  }
}
