/** Which ledger row an ingest is for and what it writes, read off its arguments. */
module UnitIdentity {
  import opened Wrappers
  import opened Text
  import opened Hashing
  import opened Calendar
  import opened Database
  import opened RawEvents
  import opened Ingest
  import opened Service
  import opened LedgerRuns

  // ---- the unit of an ingest --------------------------------------------------------

  predicate HasId(id: Option<string>) {
    id.Some? && HasText(id.value)
  }

  /** The text of an optional hash, lower-cased; blank counts as none. */
  function GivenHash(hash: Option<string>): Option<string> {
    if HasId(hash) then Some(Lower(Strip(hash.value))) else None
  }

  function HashOf(cfg: Config, content: string): string {
    cfg.digest(CanonicalizeContent(content))
  }

  /** The item key: the words of an external id, or the hash of the content when there is no such id. */
  predicate IsItemOf(item: string, externalId: Option<string>, contentHash: string) {
    if HasId(externalId) then item == "ext:" + Join(Words(externalId.value), ' ') else item == "hash:" + contentHash
  }

  /** The unit that an ingest from this source is for. */
  predicate IsUnitOf(cfg: Config, source: string, args: IngestArgs, id: UnitId) {
    && id.source == source
    && (match args.stream case None => id.stream == "" case Some(text) => id.stream == text)
    && IsItemOf(id.item, args.externalId, HashOf(cfg, args.content))
  }

  lemma CleanIs(id: Option<string>, hash: Option<string>)
    ensures CleanExternal(id) == if HasId(id) then Some(Strip(id.value)) else None
    ensures GivenHash(hash) == if CleanHash(hash) != "" then Some(CleanHash(hash)) else None
  {
    if id.Some? { BlankIff(id.value); }
    if hash.Some? { BlankIff(hash.value); }
  }

  lemma WordsOfStrip(s: string)
    ensures Words(Strip(s)) == Words(s) && Strip(Strip(s)) == Strip(s)
  {
    var front, back := StripSplits(s);
    WordsIgnoreEnds(front, Strip(s), back);
    StripIsTrimmed(s);
    StripTrimmed(Strip(s));
  }

  lemma ItemIs(id: Option<string>, contentHash: string)
    ensures IsItemOf(BuildItemKey(CleanExternal(id), contentHash), id, contentHash)
  {
    CleanIs(id, None);
    if HasId(id) {
      BlankIff(id.value);
      WordsOfStrip(id.value);
      KeyOfWords(Strip(id.value), contentHash);
    }
  }

  lemma UnitIs(cfg: Config, source: string, args: IngestArgs)
    ensures var u := UnitOf(cfg, source, args);
            && IsUnitOf(cfg, source, args, u.id)
            && u.canonical == CanonicalizeContent(args.content) && u.contentHash == HashOf(cfg, args.content)
            && u.externalId == (if HasId(args.externalId) then Some(Strip(args.externalId.value)) else None)
            && u.sourceHash == (if GivenHash(args.sourceHash).Some? then GivenHash(args.sourceHash).value else HashOf(cfg, args.content))
  {
    CanonicalOfStrip(args.content);
    CleanIs(args.externalId, args.sourceHash);
    ItemIs(args.externalId, HashOf(cfg, args.content));
  }

  /** Two ingests from one source are for the same unit exactly when they have the same stream, none
      counting as empty, and either both have external ids of the same words, or neither has one and
      their contents have the same hash. */
  lemma SameUnitIff(cfg: Config, source: string, a: IngestArgs, b: IngestArgs, idA: UnitId, idB: UnitId)
    requires IsUnitOf(cfg, source, a, idA) && IsUnitOf(cfg, source, b, idB)
    ensures idA == idB
            <==>
            && (a.stream == b.stream || (a.stream.None? && b.stream == Some("")) || (b.stream.None? && a.stream == Some("")))
            && (HasId(a.externalId) <==> HasId(b.externalId))
            && (if HasId(a.externalId) then Words(a.externalId.value) == Words(b.externalId.value)
                else HashOf(cfg, a.content) == HashOf(cfg, b.content))
  {
    SameItemIff(idA.item, a.externalId, HashOf(cfg, a.content), idB.item, b.externalId, HashOf(cfg, b.content));
  }

  lemma SameItemIff(itemA: string, a: Option<string>, hashA: string, itemB: string, b: Option<string>, hashB: string)
    requires IsItemOf(itemA, a, hashA) && IsItemOf(itemB, b, hashB)
    ensures itemA == itemB
            <==>
            && (HasId(a) <==> HasId(b))
            && (if HasId(a) && HasId(b) then Words(a.value) == Words(b.value) else hashA == hashB || HasId(a) || HasId(b))
  {
    if HasId(a) { BlankIff(a.value); KeyOfWords(a.value, hashA); }
    if HasId(b) { BlankIff(b.value); KeyOfWords(b.value, hashB); }
    if HasId(a) && HasId(b) {
      SameKeyIffSameWords(a.value, b.value, hashA, hashB);
    } else if HasId(a) != HasId(b) {
      assert "ext:"[0] == 'e' && "hash:"[0] == 'h';
      assert itemA[0] != itemB[0];
    } else {
      assert itemA[5..] == hashA && itemB[5..] == hashB;
    }
  }

  // ---- what an ingest answers and writes --------------------------------------------

  /** The call is for this source: a crawled one that is active. */
  lemma CrawlSourceIff(sources: map<string, bool>, key: string, source: string)
    ensures CrawlSource(sources, key) == Done(source)
            <==>
            && HasText(key) && source == Strip(key) && source != "user_session"
            && Storable(source) && source in sources && sources[source]
  {
    BlankIff(key);
  }

  /** The hash of the source's own version: the given one, or that of the content. */
  function SourceHashOf(cfg: Config, args: IngestArgs): string {
    if GivenHash(args.sourceHash).Some? then GivenHash(args.sourceHash).value else HashOf(cfg, args.content)
  }

  /** The row has both hashes of the ingest. */
  predicate HasHashes(cfg: Config, row: UnitRow, args: IngestArgs) {
    row.contentHash == HashOf(cfg, args.content) && row.sourceHash == SourceHashOf(cfg, args)
  }

  /** The answer is `Created` for a unit without a row, `Changed` when one of its row's hashes differs,
      and `Same` when both agree. */
  lemma IngestAnswerIff(cfg: Config, s: Store, args: IngestArgs, now: nat, source: string, id: UnitId)
    requires CrawlSource(s.sources, args.sourceKey) == Done(source) && IsUnitOf(cfg, source, args, id)
    requires IngestSpec(cfg, s, args, now).0.Done?
    ensures var answer := IngestSpec(cfg, s, args, now).0.value;
            && (answer.Created? <==> id !in s.ledger)
            && (answer.Changed? <==> id in s.ledger && !HasHashes(cfg, s.ledger[id], args))
            && (answer.Same? <==> id in s.ledger && HasHashes(cfg, s.ledger[id], args))
            && answer.event == if answer.Same? then s.ledger[id].lastEvent else s.nextEvent
  {
    UnitIs(cfg, source, args);
    var u := UnitOf(cfg, source, args);
    SameUnitIff(cfg, source, args, args, id, u.id);
    AnswerOfUnit(cfg, s, u, args, now);
  }

  /** The row that an ingest writes: that of its unit, or for a new one the unit as the columns keep it. */
  function RowFor(ledger: map<UnitId, UnitRow>, id: UnitId): UnitId {
    if id in ledger then id else UnitId(id.source, Cut(id.stream, 256), id.item)
  }

  /** The ledger row after an ingest: its hashes, its time, and the event that it wrote, if it wrote one. */
  predicate RowIsOf(cfg: Config, before: Option<UnitRow>, row: UnitRow, args: IngestArgs, answer: IngestAnswer, now: nat) {
    && HasHashes(cfg, row, args) && row.lastEvent == answer.event && row.lastSeen == now
    && row.firstSeen == (if before.Some? then before.value.firstSeen else now)
    && (match before
        case Some(known) => row.externalId == known.externalId
        case None => row.externalId == if HasId(args.externalId) then Some(Strip(args.externalId.value)) else None)
    && row.metadata == (if args.metadata.Some? && !answer.Same? then Some(cfg.redactMetadata(args.metadata.value))
                        else if before.Some? then before.value.metadata else None)
  }

  /** The event of an ingest: the redacted canonical text and the source's hash, touched now. */
  predicate EventIsOf(cfg: Config, e: RawEvent, args: IngestArgs, source: string, now: nat) {
    && e.content == cfg.redactSecrets(CanonicalizeContent(args.content))
    && e.eventType == Cut(args.eventType, 128) && e.sourceHash == Cut(SourceHashOf(cfg, args), 64)
    && e.sourceKey == source && e.createdAt == now && e.touchedAt == now
    && (match args.url
        case None => e.url == None
        case Some(url) => e.url == Some(if url == "" then "" else cfg.redactKnown(url)))
  }

  /** An accepted ingest writes the row of its unit and no other, and a new event exactly when the unit
      is new or changed. */
  lemma IngestWrites(cfg: Config, s: Store, args: IngestArgs, now: nat, source: string, id: UnitId)
    requires CrawlSource(s.sources, args.sourceKey) == Done(source) && IsUnitOf(cfg, source, args, id)
    requires IngestSpec(cfg, s, args, now).0.Done?
    ensures var answer, u, row := IngestSpec(cfg, s, args, now).0.value, IngestSpec(cfg, s, args, now).1, RowFor(s.ledger, id);
            && row in u.ledger && u.ledger == s.ledger[row := u.ledger[row]]
            && RowIsOf(cfg, if id in s.ledger then Some(s.ledger[id]) else None, u.ledger[row], args, answer, now)
            && (id !in s.ledger ==> row !in s.ledger)
            && u == s.(ledger := u.ledger, events := u.events, nextEvent := u.nextEvent)
            && (if answer.Same? then u.events == s.events && u.nextEvent == s.nextEvent
                else && u.nextEvent == s.nextEvent + 1 && s.nextEvent in u.events
                     && u.events == s.events[s.nextEvent := u.events[s.nextEvent]]
                     && EventIsOf(cfg, u.events[s.nextEvent], args, source, now))
  {
    UnitIs(cfg, source, args);
    SameUnitIff(cfg, source, args, args, id, UnitOf(cfg, source, args).id);
    UnitWrites(cfg, s, UnitOf(cfg, source, args), args, now);
  }

  lemma UnitWrites(cfg: Config, s: Store, unit: Unit, args: IngestArgs, now: nat)
    requires unit.contentHash == HashOf(cfg, args.content) && unit.sourceHash == SourceHashOf(cfg, args)
    requires unit.canonical == CanonicalizeContent(args.content)
    requires unit.externalId == if HasId(args.externalId) then Some(Strip(args.externalId.value)) else None
    requires UnitSpec(cfg, s, unit, args, now).0.Done?
    ensures var id, answer, u := unit.id, UnitSpec(cfg, s, unit, args, now).0.value, UnitSpec(cfg, s, unit, args, now).1;
            var row := RowFor(s.ledger, id);
            && row in u.ledger && u.ledger == s.ledger[row := u.ledger[row]]
            && RowIsOf(cfg, if id in s.ledger then Some(s.ledger[id]) else None, u.ledger[row], args, answer, now)
            && (id !in s.ledger ==> row !in s.ledger)
            && u == s.(ledger := u.ledger, events := u.events, nextEvent := u.nextEvent)
            && (if answer.Same? then u.events == s.events && u.nextEvent == s.nextEvent
                else && u.nextEvent == s.nextEvent + 1 && s.nextEvent in u.events
                     && u.events == s.events[s.nextEvent := u.events[s.nextEvent]]
                     && EventIsOf(cfg, u.events[s.nextEvent], args, id.source, now))
  {
  }

  /** The event and the row of a unit that is new or changed can be written. */
  predicate Takes(cfg: Config, s: Store, args: IngestArgs, id: UnitId, now: nat) {
    && MonthOf(now) in s.partitions
    && Fits(args.eventType, 128) && Fits(SourceHashOf(cfg, args), 64)
    && Storable(cfg.redactSecrets(CanonicalizeContent(args.content)))
    && (args.url.Some? && args.url.value != "" ==> Storable(cfg.redactKnown(args.url.value)))
    && (args.metadata.Some? ==> StorableAttrs(cfg.redactMetadata(args.metadata.value)))
    && (id !in s.ledger ==>
          && Fits(id.stream, 256) && |id.item| <= 512 && (HasId(args.externalId) ==> |Strip(args.externalId.value)| <= 512)
          && RowFor(s.ledger, id) !in s.ledger)
  }

  /** An ingest is refused for a blank content, or for one that is too long and has to be stored. It
      fails in the database when the unit cannot be looked up, or has to be stored and cannot be. */
  lemma IngestOutcomeIs(cfg: Config, s: Store, args: IngestArgs, now: nat, source: string, id: UnitId)
    requires CrawlSource(s.sources, args.sourceKey) == Done(source) && IsUnitOf(cfg, source, args, id)
    ensures var answer := IngestSpec(cfg, s, args, now).0;
            var same := id in s.ledger && HasHashes(cfg, s.ledger[id], args);
            if !HasText(args.content) then answer == Refused(Invalid)
            else if !Storable(id.stream) || !Storable(id.item) then answer == Crashed
            else if same then answer.Done?
            else if |CanonicalizeContent(args.content)| > cfg.maxRawChars then answer == Refused(Invalid)
            else if Takes(cfg, s, args, id, now) then answer.Done? else answer == Crashed
    ensures !IngestSpec(cfg, s, args, now).0.Done? ==> IngestSpec(cfg, s, args, now).1 == s
  {
    BlankIff(args.content);
    UnitIs(cfg, source, args);
    SameUnitIff(cfg, source, args, args, id, UnitOf(cfg, source, args).id);
    UnitOutcomeIs(cfg, s, UnitOf(cfg, source, args), args, now);
  }

  lemma UnitOutcomeIs(cfg: Config, s: Store, unit: Unit, args: IngestArgs, now: nat)
    requires unit.contentHash == HashOf(cfg, args.content) && unit.sourceHash == SourceHashOf(cfg, args)
    requires unit.canonical == CanonicalizeContent(args.content)
    requires unit.externalId == if HasId(args.externalId) then Some(Strip(args.externalId.value)) else None
    ensures var id, answer := unit.id, UnitSpec(cfg, s, unit, args, now).0;
            var same := id in s.ledger && HasHashes(cfg, s.ledger[id], args);
            if !Storable(id.stream) || !Storable(id.item) then answer == Crashed
            else if same then answer.Done?
            else if |CanonicalizeContent(args.content)| > cfg.maxRawChars then answer == Refused(Invalid)
            else if Takes(cfg, s, args, id, now) then answer.Done? else answer == Crashed
    ensures !UnitSpec(cfg, s, unit, args, now).0.Done? ==> UnitSpec(cfg, s, unit, args, now).1 == s
  {
  }

  // ---- what a check answers ---------------------------------------------------------

  /** The content hash that a candidate tells: its own, or that of its content. */
  function ToldHash(cfg: Config, c: Candidate): Option<string>
    requires c.Candidate?
  {
    if HasId(c.contentHash) then GivenHash(c.contentHash)
    else if HasId(c.content) then Some(HashOf(cfg, c.content.value))
    else None
  }

  /** A candidate's stream is its own, or else the one of the call. */
  function StreamOfCandidate(stream: Option<string>, c: Candidate): string
    requires c.Candidate?
  {
    StreamText(if c.stream.Some? then c.stream else stream)
  }

  function StreamText(stream: Option<string>): string {
    match stream case None => "" case Some(text) => text
  }

  lemma ToldIs(cfg: Config, c: Candidate)
    requires c.Candidate?
    ensures ToldHash(cfg, c) == if CandidateHash(cfg, c) != "" then Some(CandidateHash(cfg, c)) else None
  {
    CleanIs(c.content, c.contentHash);
    if c.content.Some? {
      BlankIff(c.content.value);
      HexIsStorable(cfg.digest(CanonicalizeContent(c.content.value)));
    }
  }

  /** A candidate that tells nothing is an error. One that tells only a source hash is unchanged exactly
      when a row of its stream has that hash, and else unknown. */
  lemma StatusByHash(cfg: Config, ledger: map<UnitId, UnitRow>, source: string, stream: Option<string>, c: Candidate)
    requires c.Candidate? ==> !HasId(c.externalId) && ToldHash(cfg, c).None?
    ensures var status := Classify(cfg, ledger, source, stream, c);
            if c.NotAnObject? || GivenHash(c.sourceHash).None? then status == Done(CheckError)
            else
              var text, native := StreamOfCandidate(stream, c), GivenHash(c.sourceHash).value;
              if !Storable(text) || !Storable(native) then status == Crashed
              else if exists row :: row in ledger && row.source == source && row.stream == text && ledger[row].sourceHash == native
              then status == Done(IsUnchanged)
              else status == Done(Unknown)
  {
    if c.Candidate? {
      CleanIs(c.externalId, c.sourceHash);
      ToldIs(cfg, c);
    }
  }

  /** Every other candidate is looked up by its id or content hash: unknown without a row, known when it
      tells no hash, changed exactly when a hash that it tells differs from the row's. */
  lemma StatusByItem(cfg: Config, ledger: map<UnitId, UnitRow>, source: string, stream: Option<string>, c: Candidate, id: UnitId)
    requires c.Candidate? && (HasId(c.externalId) || ToldHash(cfg, c).Some?)
    requires id.source == source && id.stream == StreamOfCandidate(stream, c)
    requires IsItemOf(id.item, c.externalId, if ToldHash(cfg, c).Some? then ToldHash(cfg, c).value else "")
    ensures var status, told, native := Classify(cfg, ledger, source, stream, c), ToldHash(cfg, c), GivenHash(c.sourceHash);
            if !Storable(id.stream) || !Storable(id.item) then status == Crashed
            else if id !in ledger then status == Done(Unknown)
            else if told.None? && native.None? then status == Done(Known)
            else if (told.None? || ledger[id].contentHash == told.value) && (native.None? || ledger[id].sourceHash == native.value)
            then status == Done(IsUnchanged)
            else status == Done(IsChanged)
  {
    CleanIs(c.externalId, c.sourceHash);
    ToldIs(cfg, c);
    var hash := CandidateHash(cfg, c);
    ItemIs(c.externalId, hash);
    SameItemIff(id.item, c.externalId, hash, BuildItemKey(CleanExternal(c.externalId), hash), c.externalId, hash);
    assert id == UnitId(source, StreamOfCandidate(stream, c), BuildItemKey(CleanExternal(c.externalId), hash));
  }

  /** A limit is kept between 1 and 5. */
  lemma SearchLimitIs(cfg: Config, limit: int)
    ensures SearchLimit(cfg, Some(limit)) == if limit < 1 then 1 else if limit > 5 then 5 else limit
    ensures SearchLimit(cfg, None) == cfg.defaultLimit
  {
  }

  // ---- one unit, one row ------------------------------------------------------------

  /** No stored stream is longer than its column. */
  ghost predicate StreamsFit(ledger: map<UnitId, UnitRow>) {
    forall id :: id in ledger ==> |id.stream| <= 256
  }

  lemma IngestKeepsRows(cfg: Config, s: Store, args: IngestArgs, now: nat)
    ensures var u := IngestSpec(cfg, s, args, now).1;
            && (forall id :: id in s.ledger ==> id in u.ledger)
            && (StreamsFit(s.ledger) ==> StreamsFit(u.ledger))
  {
    var source := CrawlSource(s.sources, args.sourceKey);
    if IngestSpec(cfg, s, args, now).0.Done? {
      UnitIs(cfg, source.value, args);
      IngestWrites(cfg, s, args, now, source.value, UnitOf(cfg, source.value, args).id);
    } else {
      UnacceptedIngest(cfg, s, args, now);
    }
  }

  /** The step forgets the units of this source. */
  predicate Resets(step: Step, source: string) {
    step.ResetIngest? && step.confirm && Strip(step.sourceKey) == source
  }

  predicate NeverResets(steps: seq<Step>, source: string) {
    forall i :: 0 <= i < |steps| ==> !Resets(steps[i], source)
  }

  /** A confirmed reset removes exactly the rows of its source. */
  lemma ResetRemoves(s: Store, key: string, confirm: bool, id: UnitId)
    requires ResetSpec(s, key, confirm).Done?
    ensures var u := ResetSpec(s, key, confirm).value;
            && (id in u.ledger <==> id in s.ledger && !(confirm && id.source == Strip(key)))
            && (id in u.ledger ==> u.ledger[id] == s.ledger[id])
            && u == s.(ledger := u.ledger)
  {
  }

  lemma StepKeepsRows(cfg: Config, s: Store, step: Step)
    requires StoreOk(s)
    ensures forall id :: id in s.ledger && !Resets(step, id.source) ==> id in Next(cfg, s, step).ledger
    ensures StreamsFit(s.ledger) ==> StreamsFit(Next(cfg, s, step).ledger)
  {
    match step
    case IngestOne(args, now) => IngestKeepsRows(cfg, s, args, now);
    case ResetIngest(key, confirm) =>
      if ResetSpec(s, key, confirm).Done? {
        forall id { ResetRemoves(s, key, confirm, id); }
      }
    case _ => OtherStepKeepsLedger(cfg, s, step);
  }

  lemma {:induction false} RunKeepsRows(cfg: Config, s: Store, steps: seq<Step>)
    requires StoreOk(s)
    ensures forall id :: id in s.ledger && NeverResets(steps, id.source) ==> id in Run(cfg, s, steps).ledger
    ensures StreamsFit(s.ledger) ==> StreamsFit(Run(cfg, s, steps).ledger)
  {
    if steps != [] {
      var front := steps[..|steps| - 1];
      RunKeepsRows(cfg, s, front);
      RunKeepsStore(cfg, s, front);
      StepKeepsRows(cfg, Run(cfg, s, front), steps[|steps| - 1]);
    }
  }

  /** Two accepted ingests from one source write the same row exactly when the column keeps the same of
      their streams and either both have external ids of the same words, or neither has one and their
      contents have the same hash. */
  lemma OneRowIff(cfg: Config, s: Store, a: IngestArgs, idA: UnitId, t: Store, b: IngestArgs, idB: UnitId, source: string)
    requires StreamsFit(s.ledger) && StreamsFit(t.ledger)
    requires IsUnitOf(cfg, source, a, idA) && IsUnitOf(cfg, source, b, idB)
    ensures RowFor(s.ledger, idA) == RowFor(t.ledger, idB)
            <==>
            && Cut(StreamText(a.stream), 256) == Cut(StreamText(b.stream), 256)
            && (HasId(a.externalId) <==> HasId(b.externalId))
            && (if HasId(a.externalId) then Words(a.externalId.value) == Words(b.externalId.value)
                else HashOf(cfg, a.content) == HashOf(cfg, b.content))
  {
    SameItemIff(idA.item, a.externalId, HashOf(cfg, a.content), idB.item, b.externalId, HashOf(cfg, b.content));
  }

  lemma IngestedRowStays(cfg: Config, s: Store, a: IngestArgs, now: nat, steps: seq<Step>, source: string, id: UnitId)
    requires StoreOk(s) && CrawlSource(s.sources, a.sourceKey) == Done(source) && IsUnitOf(cfg, source, a, id)
    requires IngestSpec(cfg, s, a, now).0.Done? && |id.stream| <= 256 && NeverResets(steps, source)
    ensures id in Run(cfg, IngestSpec(cfg, s, a, now).1, steps).ledger
  {
    IngestWrites(cfg, s, a, now, source, id);
    IngestStepKeeps(cfg, s, a, now);
    RunKeepsRows(cfg, IngestSpec(cfg, s, a, now).1, steps);
  }

  lemma KnownUnitAnswer(cfg: Config, s: Store, args: IngestArgs, now: nat, source: string, id: UnitId)
    requires CrawlSource(s.sources, args.sourceKey) == Done(source) && IsUnitOf(cfg, source, args, id)
    requires IngestSpec(cfg, s, args, now).0.Done? && id in s.ledger
    ensures var (answer, u) := IngestSpec(cfg, s, args, now);
            !answer.value.Created? && (answer.value.Changed? <==> !HasHashes(cfg, s.ledger[id], args)) && u.ledger.Keys == s.ledger.Keys
  {
    IngestAnswerIff(cfg, s, args, now, source, id);
    IngestWrites(cfg, s, args, now, source, id);
  }

  /** A unit never gets a second row: after an accepted ingest, whatever runs in between without
      a reset of its source, another accepted ingest of the unit is answered as changed, or as the same
      when the stored hashes agree, and writes the row of the first. */
  lemma IngestedAgain(cfg: Config, s: Store, a: IngestArgs, nowA: nat, steps: seq<Step>, b: IngestArgs, nowB: nat,
                      source: string, id: UnitId)
    requires StoreOk(s) && CrawlSource(s.sources, a.sourceKey) == Done(source) && IsUnitOf(cfg, source, a, id)
    requires IngestSpec(cfg, s, a, nowA).0.Done? && |id.stream| <= 256
    requires NeverResets(steps, source)
    requires var t := Run(cfg, IngestSpec(cfg, s, a, nowA).1, steps);
             && CrawlSource(t.sources, b.sourceKey) == Done(source) && IsUnitOf(cfg, source, b, id)
             && IngestSpec(cfg, t, b, nowB).0.Done?
    ensures var t := Run(cfg, IngestSpec(cfg, s, a, nowA).1, steps);
            var (answer, u) := IngestSpec(cfg, t, b, nowB);
            && id in t.ledger && !answer.value.Created?
            && (answer.value.Changed? <==> !HasHashes(cfg, t.ledger[id], b))
            && u.ledger.Keys == t.ledger.Keys
  {
    IngestedRowStays(cfg, s, a, nowA, steps, source, id);
    KnownUnitAnswer(cfg, Run(cfg, IngestSpec(cfg, s, a, nowA).1, steps), b, nowB, source, id);
  }
}
