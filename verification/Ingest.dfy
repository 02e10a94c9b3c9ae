/** The ingest ledger: one row per crawled unit, and the check that predicts an ingest. */
module Ingest {
  import opened Wrappers
  import opened Text
  import opened Hashing
  import opened Calendar
  import opened Database
  import opened RawEvents

  datatype IngestArgs = IngestArgs(sourceKey: string, content: string, stream: Option<string>, externalId: Option<string>,
                                   sourceHash: Option<string>, url: Option<string>, eventType: string, metadata: Option<Attrs>)

  datatype IngestAnswer = Created(event: EventId) | Changed(event: EventId) | Same(event: EventId)

  function CleanExternal(id: Option<string>): Option<string> {
    if id.Some? && Strip(id.value) != "" then Some(Strip(id.value)) else None
  }

  function CleanHash(hash: Option<string>): string {
    if hash.Some? then Lower(Strip(hash.value)) else ""
  }

  function StreamOf(stream: Option<string>): string {
    if stream.Some? then stream.value else ""
  }

  /** `_crawl_source` */
  function CrawlSource(sources: map<string, bool>, key: string): Outcome<string> {
    if Strip(key) == "" || Strip(key) == USER_SESSION then Refused(Invalid) else FindSource(sources, Strip(key))
  }

  /** A unit as the ledger sees it. */
  datatype Unit = Unit(id: UnitId, externalId: Option<string>, canonical: string, contentHash: string, sourceHash: string)

  function UnitOf(cfg: Config, source: string, args: IngestArgs): Unit {
    var canonical := CanonicalizeContent(Strip(args.content));
    var contentHash, given := cfg.digest(canonical), CleanHash(args.sourceHash);
    var ext := CleanExternal(args.externalId);
    Unit(UnitId(source, StreamOf(args.stream), BuildItemKey(ext, contentHash)), ext, canonical, contentHash,
         if given != "" then given else cfg.digest(canonical))
  }

  predicate IsSame(ledger: map<UnitId, UnitRow>, u: Unit) {
    u.id in ledger && ledger[u.id].contentHash == u.contentHash && ledger[u.id].sourceHash == u.sourceHash
  }

  function MetadataOr(cfg: Config, given: Option<Attrs>, before: Option<Attrs>): Option<Attrs> {
    if given.Some? then Some(cfg.redactMetadata(given.value)) else before
  }

  function WrittenRow(cfg: Config, ledger: map<UnitId, UnitRow>, u: Unit, args: IngestArgs, event: EventId, now: nat): UnitRow {
    if u.id in ledger then
      ledger[u.id].(contentHash := u.contentHash, sourceHash := u.sourceHash, lastEvent := event, lastSeen := now,
                    metadata := MetadataOr(cfg, args.metadata, ledger[u.id].metadata))
    else UnitRow(u.externalId, u.contentHash, u.sourceHash, event, MetadataOr(cfg, args.metadata, None), now, now)
  }

  const STREAM_WIDTH: nat := 256
  const ITEM_WIDTH: nat := 512

  /** The ledger lookup takes the parameters. */
  predicate CanLookUp(id: UnitId) {
    Storable(id.stream) && Storable(id.item)
  }

  /** The id that a new row gets. An item key ends in no space, so none of it can be cut. */
  function StoredId(id: UnitId): UnitId {
    id.(stream := Cut(id.stream, STREAM_WIDTH))
  }

  function RowId(ledger: map<UnitId, UnitRow>, u: Unit): UnitId {
    if u.id in ledger then u.id else StoredId(u.id)
  }

  /** The ledger takes the row: the texts fit, and a new row's id is not taken. */
  predicate LedgerTakes(cfg: Config, ledger: map<UnitId, UnitRow>, u: Unit, args: IngestArgs) {
    && (args.metadata.Some? ==> StorableAttrs(cfg.redactMetadata(args.metadata.value)))
    && (u.id !in ledger ==>
          && Fits(u.id.stream, STREAM_WIDTH) && |u.id.item| <= ITEM_WIDTH
          && (u.externalId.Some? ==> |u.externalId.value| <= ITEM_WIDTH)
          && StoredId(u.id) !in ledger)
  }

  function NewEventOf(u: Unit, args: IngestArgs): NewEvent {
    NewEvent(u.id.source, args.eventType, u.canonical, u.sourceHash, args.url)
  }

  /** One ingest as a transaction. */
  function UnitSpec(cfg: Config, s: Store, u: Unit, args: IngestArgs, now: nat): (Outcome<IngestAnswer>, Store) {
    if !CanLookUp(u.id) then (Crashed, s)
    else if IsSame(s.ledger, u) then
      (Done(Same(s.ledger[u.id].lastEvent)), s.(ledger := s.ledger[u.id := s.ledger[u.id].(lastSeen := now)]))
    else
      match AddSpec(cfg, s, NewEventOf(u, args), now)
      case Refused(e) => (Refused(e), s)
      case Crashed => (Crashed, s)
      case Done(v) =>
        if !LedgerTakes(cfg, s.ledger, u, args) then (Crashed, s)
        else
          (Done(if u.id in s.ledger then Changed(s.nextEvent) else Created(s.nextEvent)),
           v.(ledger := s.ledger[RowId(s.ledger, u) := WrittenRow(cfg, s.ledger, u, args, s.nextEvent, now)]))
  }

  function IngestSpec(cfg: Config, s: Store, args: IngestArgs, now: nat): (Outcome<IngestAnswer>, Store) {
    match CrawlSource(s.sources, args.sourceKey)
    case Refused(e) => (Refused(e), s)
    case Crashed => (Crashed, s)
    case Done(source) =>
      if Strip(args.content) == "" then (Refused(Invalid), s)
      else UnitSpec(cfg, s, UnitOf(cfg, source, args), args, now)
  }

  /** An ingest that fails on its ledger row leaves the flushed event in the session. */
  method IngestSourceUnit(session: Session, cfg: Config, args: IngestArgs, now: nat) returns (r: Outcome<IngestAnswer>)
    modifies session
    ensures r == IngestSpec(cfg, old(session.db), args, now).0
    ensures !r.Crashed? ==> session.db == IngestSpec(cfg, old(session.db), args, now).1
  {
    var source := CrawlSource(session.db.sources, args.sourceKey);
    if source.Refused? { return Refused(source.error); }
    if source.Crashed? { return Crashed; }
    if RequireText(args.content).Err? { return Refused(Invalid); }
    r := IngestUnit(session, cfg, UnitOf(cfg, source.value, args), args, now);
  }

  method IngestUnit(session: Session, cfg: Config, u: Unit, args: IngestArgs, now: nat) returns (r: Outcome<IngestAnswer>)
    modifies session
    ensures r == UnitSpec(cfg, old(session.db), u, args, now).0
    ensures !r.Crashed? ==> session.db == UnitSpec(cfg, old(session.db), u, args, now).1
  {
    var ledger := session.db.ledger;
    if !CanLookUp(u.id) { return Crashed; }
    if IsSame(ledger, u) {
      session.db := session.db.(ledger := ledger[u.id := ledger[u.id].(lastSeen := now)]);
      return Done(Same(ledger[u.id].lastEvent));
    }
    var added := AddRawEvent(session, cfg, NewEventOf(u, args), now);
    match added {
      case Refused(e) => return Refused(e);
      case Crashed => return Crashed;
      case Done(event) =>
        var known := u.id in ledger;
        var row := if known then ledger[u.id] else UnitRow(u.externalId, u.contentHash, u.sourceHash, event, None, now, now);
        row := row.(contentHash := u.contentHash, sourceHash := u.sourceHash, lastEvent := event, lastSeen := now);
        if args.metadata.Some? { row := row.(metadata := Some(cfg.redactMetadata(args.metadata.value))); }
        if !LedgerTakes(cfg, ledger, u, args) { return Crashed; }
        session.db := session.db.(ledger := ledger[RowId(ledger, u) := row]);
        r := Done(if known then Changed(event) else Created(event));
    }
  }

  /** Forget the units of one source; nothing else changes. */
  function ResetSpec(s: Store, sourceKey: string, confirm: bool): Outcome<Store> {
    match CrawlSource(s.sources, sourceKey)
    case Refused(e) => Refused(e)
    case Crashed => Crashed
    case Done(source) =>
      if !confirm then Done(s)
      else Done(s.(ledger := map u | u in s.ledger && u.source != source :: s.ledger[u]))
  }

  datatype ResetAnswer = Preview(hasUnits: bool) | Cleared(units: int)

  predicate HasUnits(ledger: map<UnitId, UnitRow>, source: string) {
    exists u :: u in ledger && u.source == source
  }

  method ResetSourceIngest(session: Session, sourceKey: string, confirm: bool) returns (r: Outcome<ResetAnswer>)
    modifies session
    ensures match ResetSpec(old(session.db), sourceKey, confirm)
            case Done(s) =>
              && session.db == s
              && r == Done(if confirm then Cleared(|old(session.db).ledger| - |s.ledger|)
                           else Preview(HasUnits(s.ledger, Strip(sourceKey))))
            case Refused(e) => r == Refused(e) && session.db == old(session.db)
            case Crashed => r == Crashed && session.db == old(session.db)
  {
    var source := CrawlSource(session.db.sources, sourceKey);
    if source.Refused? { return Refused(source.error); }
    if source.Crashed? { return Crashed; }
    var before := session.db.ledger;
    if !confirm { return Done(Preview(HasUnits(before, source.value))); }
    var after := map u | u in before && u.source != source.value :: before[u];
    session.db := session.db.(ledger := after);
    assert after.Keys <= before.Keys;
    assert before.Keys == after.Keys + (before.Keys - after.Keys);
    r := Done(Cleared(|before| - |after|));
  }

  // ---- checking before reading ------------------------------------------------------

  datatype Candidate = Candidate(externalId: Option<string>, content: Option<string>, contentHash: Option<string>,
                                 sourceHash: Option<string>, stream: Option<string>)
                     | NotAnObject

  datatype Status = CheckError | Unknown | Known | IsChanged | IsUnchanged

  function CandidateHash(cfg: Config, c: Candidate): string
    requires c.Candidate?
  {
    if CleanHash(c.contentHash) != "" then CleanHash(c.contentHash)
    else if c.content.Some? && Strip(c.content.value) != "" then cfg.digest(CanonicalizeContent(c.content.value))
    else ""
  }

  predicate HashKnown(ledger: map<UnitId, UnitRow>, source: string, stream: string, hash: string) {
    exists u :: u in ledger && u.source == source && u.stream == stream && ledger[u].sourceHash == hash
  }

  function Classify(cfg: Config, ledger: map<UnitId, UnitRow>, source: string, stream: Option<string>, c: Candidate): Outcome<Status> {
    if c.NotAnObject? then Done(CheckError)
    else
      var inStream := if c.stream.Some? then c.stream.value else StreamOf(stream);
      var ext, cHash, sHash := CleanExternal(c.externalId), CandidateHash(cfg, c), CleanHash(c.sourceHash);
      if ext.None? && cHash == "" && sHash == "" then Done(CheckError)
      else if ext.None? && cHash == "" then
        // Looked up by source hash alone, so a row that is found has that hash.
        if !Storable(inStream) || !Storable(sHash) then Crashed
        else Done(if HashKnown(ledger, source, inStream, sHash) then IsUnchanged else Unknown)
      else
        var id := UnitId(source, inStream, BuildItemKey(ext, cHash));
        if !CanLookUp(id) then Crashed
        else if id !in ledger then Done(Unknown)
        else if cHash == "" && sHash == "" then Done(Known)
        else if (cHash != "" && ledger[id].contentHash != cHash) || (sHash != "" && ledger[id].sourceHash != sHash)
        then Done(IsChanged)
        else Done(IsUnchanged)
  }

  const MAX_SEARCH_LIMIT: nat := 5

  function SearchLimit(cfg: Config, limit: Option<int>): nat {
    if limit.None? then cfg.defaultLimit else Max(1, Min(limit.value, MAX_SEARCH_LIMIT))
  }

  /** The first candidates have these statuses. */
  predicate StatusesAre(cfg: Config, ledger: map<UnitId, UnitRow>, source: string, stream: Option<string>,
                        candidates: seq<Candidate>, statuses: seq<Status>)
    requires |statuses| <= |candidates|
  {
    forall i :: 0 <= i < |statuses| ==> Classify(cfg, ledger, source, stream, candidates[i]) == Done(statuses[i])
  }

  lemma OneStatusMore(cfg: Config, ledger: map<UnitId, UnitRow>, source: string, stream: Option<string>,
                      candidates: seq<Candidate>, statuses: seq<Status>, status: Status)
    requires |statuses| < |candidates| && StatusesAre(cfg, ledger, source, stream, candidates, statuses)
    requires Classify(cfg, ledger, source, stream, candidates[|statuses|]) == Done(status)
    ensures StatusesAre(cfg, ledger, source, stream, candidates, statuses + [status])
  {
  }

  /** One candidate that fails in the database fails the call. */
  method CheckSourceUnits(session: Session, cfg: Config, sourceKey: string, candidates: seq<Candidate>,
                          stream: Option<string>, limit: Option<int>) returns (r: Outcome<seq<Status>>)
    ensures match CrawlSource(session.db.sources, sourceKey)
            case Refused(e) => r == Refused(e)
            case Crashed => r == Crashed
            case Done(source) =>
              match r
              case Done(statuses) =>
                && |statuses| == Min(|candidates|, SearchLimit(cfg, limit))
                && StatusesAre(cfg, session.db.ledger, source, stream, candidates, statuses)
              case Refused(_) => false
              case Crashed =>
                exists i :: 0 <= i < Min(|candidates|, SearchLimit(cfg, limit))
                            && Classify(cfg, session.db.ledger, source, stream, candidates[i]) == Crashed
  {
    var source := CrawlSource(session.db.sources, sourceKey);
    if source.Refused? { return Refused(source.error); }
    if source.Crashed? { return Crashed; }
    var capped := Min(|candidates|, SearchLimit(cfg, limit));
    var results := [];
    for i := 0 to capped
      invariant |results| == i
      invariant StatusesAre(cfg, session.db.ledger, source.value, stream, candidates, results)
    {
      var status := Classify(cfg, session.db.ledger, source.value, stream, candidates[i]);
      ClassifyAnswers(cfg, session.db.ledger, source.value, stream, candidates[i]);
      if !status.Done? { return Crashed; }
      OneStatusMore(cfg, session.db.ledger, source.value, stream, candidates, results, status.value);
      results := results + [status.value];
    }
    r := Done(results);
  }

  lemma ClassifyAnswers(cfg: Config, ledger: map<UnitId, UnitRow>, source: string, stream: Option<string>, c: Candidate)
    ensures !Classify(cfg, ledger, source, stream, c).Refused?
  {
  }

  /** The candidate for what would be ingested. */
  function CandidateFor(args: IngestArgs): Candidate {
    Candidate(args.externalId, Some(args.content), None, args.sourceHash, None)
  }

  /** The status foretells the answer. */
  predicate Foretells(status: Outcome<Status>, answer: Outcome<IngestAnswer>) {
    match answer
    case Done(Created(_)) => status == Done(Unknown)
    case Done(Changed(_)) => status == Done(IsChanged)
    case Done(Same(_)) => status == Done(IsUnchanged)
    case _ => false
  }

  /** Both sides derive the same hash, though only the ingest strips the content first. */
  lemma SameHash(cfg: Config, source: string, args: IngestArgs)
    requires Strip(args.content) != ""
    ensures CandidateHash(cfg, CandidateFor(args)) == UnitOf(cfg, source, args).contentHash != ""
  {
    CanonicalOfStrip(args.content);
    HexIsStorable(cfg.digest(CanonicalizeContent(args.content)));
    assert CleanHash(None) == "";
  }

  lemma StatusOfUnit(cfg: Config, ledger: map<UnitId, UnitRow>, source: string, args: IngestArgs)
    requires Strip(args.content) != ""
    ensures var u := UnitOf(cfg, source, args);
            Classify(cfg, ledger, source, args.stream, CandidateFor(args))
            == if !CanLookUp(u.id) then Crashed
               else if u.id !in ledger then Done(Unknown)
               else if ledger[u.id].contentHash != u.contentHash
                       || (CleanHash(args.sourceHash) != "" && ledger[u.id].sourceHash != u.sourceHash) then Done(IsChanged)
               else Done(IsUnchanged)
  {
    SameHash(cfg, source, args);
  }

  /** The payload and the ledger row of a unit can be written. */
  predicate CanStore(cfg: Config, s: Store, u: Unit, args: IngestArgs, now: nat) {
    && |u.canonical| <= cfg.maxRawChars && MonthOf(now) in s.partitions
    && EventFits(cfg, NewEventOf(u, args)) && LedgerTakes(cfg, s.ledger, u, args)
  }

  lemma AnswerOfUnit(cfg: Config, s: Store, u: Unit, args: IngestArgs, now: nat)
    ensures var answer := UnitSpec(cfg, s, u, args, now).0;
            && (answer.Done? <==> CanLookUp(u.id) && (IsSame(s.ledger, u) || CanStore(cfg, s, u, args, now)))
            && (answer.Done? ==>
                  && (answer.value.Same? <==> IsSame(s.ledger, u))
                  && (answer.value.Created? <==> u.id !in s.ledger))
  {
  }

  /** The check foretells the ingest exactly when the ledger can be searched for the unit; the source
      hash is given, or the stored one is the default or was not needed; and the unit, if it must be
      written, can be. */
  lemma CheckForetellsIngestIff(cfg: Config, s: Store, source: string, args: IngestArgs, now: nat)
    requires CrawlSource(s.sources, args.sourceKey) == Done(source) && Strip(args.content) != ""
    ensures var u := UnitOf(cfg, source, args);
            Foretells(Classify(cfg, s.ledger, source, args.stream, CandidateFor(args)), IngestSpec(cfg, s, args, now).0)
            <==>
            && CanLookUp(u.id)
            && (CleanHash(args.sourceHash) != "" || u.id !in s.ledger || s.ledger[u.id].contentHash != u.contentHash
                || s.ledger[u.id].sourceHash == u.contentHash)
            && (IsSame(s.ledger, u) || CanStore(cfg, s, u, args, now))
  {
    var u := UnitOf(cfg, source, args);
    StatusOfUnit(cfg, s.ledger, source, args);
    AnswerOfUnit(cfg, s, u, args, now);
    assert CleanHash(args.sourceHash) == "" ==> u.sourceHash == u.contentHash;
    assert IngestSpec(cfg, s, args, now) == UnitSpec(cfg, s, u, args, now);
  }

  // ---- the log that the ledger indexes ----------------------------------------------

  /** One accepted ingest; `event` is the row it wrote, if it wrote one. */
  datatype LogEntry = LogEntry(unit: UnitId, externalId: Option<string>, contentHash: string, sourceHash: string,
                               metadata: Option<Attrs>, now: nat, event: Option<EventId>)

  datatype LogItem = Ingested(entry: LogEntry) | WasReset(source: string)

  /** The entries of one unit since its source was last reset. */
  function SinceReset(log: seq<LogItem>, u: UnitId): seq<LogEntry> {
    if log == [] then []
    else
      var before, last := SinceReset(log[..|log| - 1], u), log[|log| - 1];
      match last
      case WasReset(source) => if source == u.source then [] else before
      case Ingested(e) => if e.unit == u then before + [e] else before
  }

  function LastEvent(es: seq<LogEntry>): Option<EventId> {
    if es == [] then None
    else if es[|es| - 1].event.Some? then es[|es| - 1].event else LastEvent(es[..|es| - 1])
  }

  function LastMetadata(es: seq<LogEntry>): Option<Attrs> {
    if es == [] then None
    else if es[|es| - 1].event.Some? && es[|es| - 1].metadata.Some? then es[|es| - 1].metadata
    else LastMetadata(es[..|es| - 1])
  }

  predicate SameHashes(a: LogEntry, b: LogEntry) {
    a.contentHash == b.contentHash && a.sourceHash == b.sourceHash
  }

  /** An event is written for the first entry and for every entry whose hashes differ from those
      of the one before. */
  ghost predicate WritesOnChange(es: seq<LogEntry>) {
    forall i :: 0 <= i < |es| ==> WritesAt(es, i)
  }

  predicate WritesAt(es: seq<LogEntry>, i: nat)
    requires i < |es|
  {
    es[i].event.None? <==> i > 0 && SameHashes(es[i - 1], es[i])
  }

  /** The ledger row that a plain reading of the log gives. */
  ghost predicate RowIs(row: UnitRow, es: seq<LogEntry>) {
    && es != []
    && var last := es[|es| - 1];
    && row.contentHash == last.contentHash && row.sourceHash == last.sourceHash && row.lastSeen == last.now
    && row.firstSeen == es[0].now && row.externalId == es[0].externalId
    && LastEvent(es) == Some(row.lastEvent)
    && LastMetadata(es) == row.metadata
  }

  /** What the ledger says of one unit. */
  ghost predicate UnitIs(ledger: map<UnitId, UnitRow>, v: UnitId, es: seq<LogEntry>) {
    && (v in ledger <==> es != [])
    && (v in ledger ==> RowIs(ledger[v], es) && WritesOnChange(es))
  }

  ghost predicate LedgerIs(ledger: map<UnitId, UnitRow>, log: seq<LogItem>) {
    forall u :: UnitIs(ledger, u, SinceReset(log, u))
  }

  /** A row keyed by its content never gets another content hash. */
  ghost predicate HashKeysOk(ledger: map<UnitId, UnitRow>) {
    forall u :: u in ledger && "hash:" <= u.item ==> u.item == "hash:" + ledger[u].contentHash
  }

  function EntryFor(cfg: Config, s: Store, u: Unit, args: IngestArgs, now: nat): LogEntry {
    LogEntry(RowId(s.ledger, u), u.externalId, u.contentHash, u.sourceHash,
             if args.metadata.Some? then Some(cfg.redactMetadata(args.metadata.value)) else None, now,
             if IsSame(s.ledger, u) then None else Some(s.nextEvent))
  }

  lemma SinceResetMore(log: seq<LogItem>, item: LogItem, u: UnitId)
    ensures SinceReset(log + [item], u)
            == if item.WasReset? && item.source == u.source then []
               else if item.Ingested? && item.entry.unit == u then SinceReset(log, u) + [item.entry]
               else SinceReset(log, u)
  {
    assert (log + [item])[..|log|] == log;
  }

  lemma RowMore(row: UnitRow, es: seq<LogEntry>, e: LogEntry, next: UnitRow)
    requires if es == [] then true else RowIs(row, es) && WritesOnChange(es)
    requires e.event.Some? <==> es == [] || e.contentHash != row.contentHash || e.sourceHash != row.sourceHash
    requires next.contentHash == e.contentHash && next.sourceHash == e.sourceHash && next.lastSeen == e.now
    requires next.firstSeen == (if es == [] then e.now else row.firstSeen)
    requires next.externalId == (if es == [] then e.externalId else row.externalId)
    requires next.lastEvent == (if e.event.Some? then e.event.value else row.lastEvent)
    requires next.metadata == (if e.event.Some? && e.metadata.Some? then e.metadata else if es == [] then None else row.metadata)
    ensures RowIs(next, es + [e]) && WritesOnChange(es + [e])
  {
    var more := es + [e];
    assert more[..|es|] == es;
    forall i | 0 <= i < |more| ensures WritesAt(more, i) {
      if i < |es| {
        assert WritesAt(es, i);
      } else {
        assert i > 0 ==> more[i - 1] == es[|es| - 1];
      }
    }
  }

  lemma RowAfter(cfg: Config, s: Store, u: Unit, args: IngestArgs, now: nat)
    requires UnitSpec(cfg, s, u, args, now).0.Done?
    ensures u.id !in s.ledger ==> RowId(s.ledger, u) !in s.ledger
    ensures var next, e, id := UnitSpec(cfg, s, u, args, now).1.ledger, EntryFor(cfg, s, u, args, now), RowId(s.ledger, u);
            && id in next && next == s.ledger[id := next[id]]
            && next[id].contentHash == e.contentHash && next[id].sourceHash == e.sourceHash && next[id].lastSeen == now
            && (e.event.None? <==> IsSame(s.ledger, u))
            && (id !in s.ledger ==>
                  && e.event.Some? && next[id].firstSeen == now && next[id].externalId == e.externalId
                  && next[id].lastEvent == e.event.value && next[id].metadata == e.metadata)
            && (id in s.ledger ==>
                  && next[id].firstSeen == s.ledger[id].firstSeen && next[id].externalId == s.ledger[id].externalId
                  && next[id].lastEvent == (if e.event.Some? then e.event.value else s.ledger[id].lastEvent)
                  && next[id].metadata == (if e.event.Some? && e.metadata.Some? then e.metadata else s.ledger[id].metadata))
  {
  }

  lemma OwnUnitIs(cfg: Config, s: Store, u: Unit, args: IngestArgs, now: nat, es: seq<LogEntry>)
    requires UnitSpec(cfg, s, u, args, now).0.Done? && UnitIs(s.ledger, RowId(s.ledger, u), es)
    ensures UnitIs(UnitSpec(cfg, s, u, args, now).1.ledger, RowId(s.ledger, u), es + [EntryFor(cfg, s, u, args, now)])
  {
    RowAfter(cfg, s, u, args, now);
    var next, id := UnitSpec(cfg, s, u, args, now).1.ledger, RowId(s.ledger, u);
    var row := if id in s.ledger then s.ledger[id] else next[id];
    RowMore(row, es, EntryFor(cfg, s, u, args, now), next[id]);
  }

  /** An accepted ingest extends its unit's log by one entry. */
  lemma IngestKeepsLedger(cfg: Config, s: Store, u: Unit, args: IngestArgs, now: nat, log: seq<LogItem>)
    requires LedgerIs(s.ledger, log)
    requires UnitSpec(cfg, s, u, args, now).0.Done?
    ensures LedgerIs(UnitSpec(cfg, s, u, args, now).1.ledger, log + [Ingested(EntryFor(cfg, s, u, args, now))])
  {
    var next, e, id := UnitSpec(cfg, s, u, args, now).1.ledger, EntryFor(cfg, s, u, args, now), RowId(s.ledger, u);
    RowAfter(cfg, s, u, args, now);
    OwnUnitIs(cfg, s, u, args, now, SinceReset(log, id));
    forall v ensures UnitIs(next, v, SinceReset(log + [Ingested(e)], v)) {
      SinceResetMore(log, Ingested(e), v);
      assert UnitIs(s.ledger, v, SinceReset(log, v));
    }
  }

  lemma ResetKeepsLedger(s: Store, source: string, log: seq<LogItem>)
    requires LedgerIs(s.ledger, log)
    ensures LedgerIs(map u | u in s.ledger && u.source != source :: s.ledger[u], log + [WasReset(source)])
  {
    forall v ensures SinceReset(log + [WasReset(source)], v) == if v.source == source then [] else SinceReset(log, v) {
      SinceResetMore(log, WasReset(source), v);
    }
  }

  lemma IngestKeepsHashKeys(cfg: Config, s: Store, source: string, args: IngestArgs, now: nat)
    requires HashKeysOk(s.ledger)
    ensures HashKeysOk(UnitSpec(cfg, s, UnitOf(cfg, source, args), args, now).1.ledger)
  {
    var u := UnitOf(cfg, source, args);
    KeyKinds(u.externalId, u.contentHash);
  }
}
