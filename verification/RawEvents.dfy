/** Raw events. A row lies in the partition of the month in which it was last touched. */
module RawEvents {
  import opened Wrappers
  import opened Text
  import opened Calendar
  import opened Database

  type Events = map<EventId, RawEvent>

  /** Long enough since the last touch for a new touch to be written. */
  predicate TouchDue(cfg: Config, e: RawEvent, now: nat) {
    e.touchedAt + cfg.touchMinDays * DAY < now
  }

  /** One guarded UPDATE. Changing the partition key moves the row, which fails when the current
      month has no partition. */
  function TouchSpec(cfg: Config, events: Events, partitions: set<nat>, id: EventId, now: nat): Outcome<Events> {
    if id in events && TouchDue(cfg, events[id], now)
    then
      if MonthOf(now) in partitions then Done(events[id := events[id].(touchedAt := now)]) else Crashed
    else Done(events)
  }

  method TouchRawEvent(session: Session, cfg: Config, id: EventId, now: nat) returns (r: Outcome<bool>)
    modifies session
    ensures r.Crashed? <==> TouchSpec(cfg, old(session.db.events), old(session.db.partitions), id, now).Crashed?
    ensures r.Crashed? ==> session.db == old(session.db)
    ensures !r.Refused?
    ensures r.Done? ==>
              && session.db == old(session.db).(events := TouchSpec(cfg, old(session.db.events), old(session.db.partitions), id, now).value)
              && (r.value <==> id in old(session.db.events) && TouchDue(cfg, old(session.db.events)[id], now))
  {
    var db := session.db;
    if id !in db.events || !TouchDue(cfg, db.events[id], now) { return Done(false); }
    if MonthOf(now) !in db.partitions { return Crashed; }
    session.db := db.(events := db.events[id := db.events[id].(touchedAt := now)]);
    r := Done(true);
  }

  datatype NewEvent = NewEvent(sourceKey: string, eventType: string, content: string, sourceHash: string, url: Option<string>)

  function StoredUrl(cfg: Config, url: Option<string>): Option<string> {
    if url.Some? && url.value != "" then Some(cfg.redactKnown(url.value)) else url
  }

  const EVENT_TYPE_WIDTH: nat := 128
  const HASH_WIDTH: nat := 64

  function StoredEvent(cfg: Config, e: NewEvent, now: nat): RawEvent {
    RawEvent(Cut(e.eventType, EVENT_TYPE_WIDTH), cfg.redactSecrets(e.content), Cut(e.sourceHash, HASH_WIDTH),
             StoredUrl(cfg, e.url), e.sourceKey, now, now)
  }

  /** The columns take the row. Nothing checks this before the database does. */
  predicate EventFits(cfg: Config, e: NewEvent) {
    && Fits(e.eventType, EVENT_TYPE_WIDTH) && Fits(e.sourceHash, HASH_WIDTH)
    && Storable(cfg.redactSecrets(e.content))
    && (e.url.Some? ==> Storable(StoredUrl(cfg, e.url).value))
  }

  /** The only writer of new events; the new row takes the next id. */
  function AddSpec(cfg: Config, s: Store, e: NewEvent, now: nat): Outcome<Store> {
    if |e.content| > cfg.maxRawChars then Refused(Invalid)
    else if MonthOf(now) !in s.partitions || !EventFits(cfg, e) then Crashed
    else Done(s.(events := s.events[s.nextEvent := StoredEvent(cfg, e, now)], nextEvent := s.nextEvent + 1))
  }

  method AddRawEvent(session: Session, cfg: Config, e: NewEvent, now: nat) returns (r: Outcome<EventId>)
    modifies session
    ensures match AddSpec(cfg, old(session.db), e, now)
            case Done(s) => r == Done(old(session.db).nextEvent) && session.db == s
            case Refused(why) => r == Refused(why) && session.db == old(session.db)
            case Crashed => r == Crashed && session.db == old(session.db)
  {
    if |e.content| > cfg.maxRawChars { return Refused(Invalid); }
    if MonthOf(now) !in session.db.partitions || !EventFits(cfg, e) { return Crashed; }
    var id := session.db.nextEvent;
    session.db := session.db.(events := session.db.events[id := StoredEvent(cfg, e, now)], nextEvent := id + 1);
    r := Done(id);
  }

  /** Every stored row lies in an existing partition and has an id that was given out. */
  ghost predicate EventsOk(s: Store) {
    forall id :: id in s.events ==> id < s.nextEvent && MonthOf(s.events[id].touchedAt) in s.partitions
  }

  // ---- sources of events and references ---------------------------------------------

  function SourceKeyOf(key: Option<string>): string {
    if key.None? || Strip(key.value) == "" then USER_SESSION else Strip(key.value)
  }

  predicate SourceKnown(sources: map<string, bool>, key: string) {
    key == USER_SESSION || (key in sources && sources[key])
  }

  /** `resolve_source`: no key means the built-in source, every other one must be active. */
  function FindSource(sources: map<string, bool>, key: string): Outcome<string> {
    if !Storable(key) then Crashed
    else if !SourceKnown(sources, key) then Refused(NotFound)
    else Done(key)
  }

  datatype LogArgs = LogArgs(eventType: string, content: string, sourceKey: Option<string>, url: Option<string>, sourceHash: Option<string>)

  /** `log_raw_event` */
  function LogSpec(cfg: Config, s: Store, args: LogArgs, now: nat): Outcome<Store> {
    match FindSource(s.sources, SourceKeyOf(args.sourceKey))
    case Refused(e) => Refused(e)
    case Crashed => Crashed
    case Done(source) =>
      if RequireText(args.content).Err? || RequireText(args.eventType).Err? then Refused(Invalid)
      else
        var body := Strip(args.content);
        var hash := if Given(args.sourceHash).Some? then args.sourceHash.value else cfg.digest(body);
        AddSpec(cfg, s, NewEvent(source, Strip(args.eventType), body, hash, args.url), now)
  }

  method LogRawEvent(session: Session, cfg: Config, args: LogArgs, now: nat) returns (r: Outcome<EventId>)
    modifies session
    ensures match LogSpec(cfg, old(session.db), args, now)
            case Done(s) => r == Done(old(session.db).nextEvent) && session.db == s
            case Refused(why) => r == Refused(why) && session.db == old(session.db)
            case Crashed => r == Crashed && session.db == old(session.db)
  {
    var source := FindSource(session.db.sources, SourceKeyOf(args.sourceKey));
    if source.Refused? { return Refused(source.error); }
    if source.Crashed? { return Crashed; }
    var body, eventType := RequireText(args.content), RequireText(args.eventType);
    if body.Err? || eventType.Err? { return Refused(Invalid); }
    var hash := if Given(args.sourceHash).Some? then args.sourceHash.value else cfg.digest(body.value);
    r := AddRawEvent(session, cfg, NewEvent(source.value, eventType.value, body.value, hash, args.url), now);
  }

  // ---- reading ----------------------------------------------------------------------

  datatype Page = Page(content: string, offset: nat, total: nat, next: Option<nat>)

  datatype ReadAnswer = Read(page: Page) | Dropped(urls: seq<string>)

  function StartOf(offset: Option<int>): nat {
    if offset.Some? && offset.value > 0 then offset.value else 0
  }

  function Min(a: int, b: int): int { if a < b then a else b }

  function Max(a: int, b: int): int { if a < b then b else a }

  function PageSize(cfg: Config, maxChars: Option<int>): (n: nat)
    ensures n >= 1
  {
    Max(1, Min(if maxChars.Some? && maxChars.value != 0 then maxChars.value else cfg.rawPageChars, cfg.maxRawPageChars))
  }

  /** A slice that starts past the end is empty. */
  function PageOf(cfg: Config, payload: string, offset: Option<int>, maxChars: Option<int>): Page {
    var start, total := StartOf(offset), |payload|;
    var end := Min(start + PageSize(cfg, maxChars), total);
    Page(if start <= end then payload[start..end] else "", start, total, if end < total then Some(end) else None)
  }

  // ---- the links that revisions keep for an event -----------------------------------

  datatype CitedUrl = CitedUrl(url: string, changedAt: nat)

  /** The rows of the join: citations of the event that have a link, with the time of their
      revision. */
  function CitedRows(t: Tables, id: EventId, n: nat): seq<CitedUrl>
    requires n <= |t.citations|
  {
    if n == 0 then []
    else
      var c := t.citations[n - 1];
      if c.event == Some(id) && c.url.Some? && c.revision in t.revisions
      then CitedRows(t, id, n - 1) + [CitedUrl(c.url.value, t.revisions[c.revision].changedAt)]
      else CitedRows(t, id, n - 1)
  }

  /** Any answer to the query: the newest rows first, ties in any order, cut at the limit. */
  ghost predicate IsNewestFirst(rows: seq<CitedUrl>, limit: nat, answer: seq<CitedUrl>) {
    exists all: seq<CitedUrl> ::
      && multiset(all) == multiset(rows)
      && (forall i, j :: 0 <= i < j < |all| ==> all[i].changedAt >= all[j].changedAt)
      && answer == all[..Min(limit, |all|)]
  }

  /** `list(dict.fromkeys(urls))`: first occurrences, in order. */
  function Distinct(rows: seq<CitedUrl>): seq<string> {
    if rows == [] then []
    else
      var before, last := Distinct(rows[..|rows| - 1]), rows[|rows| - 1].url;
      if last in before then before else before + [last]
  }

  /** `get_raw_context`. `rows` is what the link query answers. Reading the first page is a touch. */
  function ReadSpec(cfg: Config, s: Store, id: EventId, offset: Option<int>, maxChars: Option<int>,
                    rows: seq<CitedUrl>, now: nat): (Outcome<ReadAnswer>, Store)
  {
    if id !in s.events then (Done(Dropped(Distinct(rows))), s)
    else
      var page := PageOf(cfg, s.events[id].content, offset, maxChars);
      if page.offset != 0 then (Done(Read(page)), s)
      else
        match TouchSpec(cfg, s.events, s.partitions, id, now)
        case Done(events) => (Done(Read(page)), s.(events := events))
        case Refused(_) => (Crashed, s)
        case Crashed => (Crashed, s)
  }

  method GetRawContext(session: Session, cfg: Config, id: EventId, offset: Option<int>, maxChars: Option<int>,
                       rows: seq<CitedUrl>, now: nat) returns (r: Outcome<ReadAnswer>)
    modifies session
    ensures (r, session.db) == ReadSpec(cfg, old(session.db), id, offset, maxChars, rows, now)
  {
    if id !in session.db.events { return Done(Dropped(Distinct(rows))); }
    var payload := session.db.events[id].content;
    var start, size := StartOf(offset), PageSize(cfg, maxChars);
    if start == 0 {
      var touched := TouchRawEvent(session, cfg, id, now);
      if touched.Crashed? { return Crashed; }
    }
    var total := |payload|;
    var end := Min(start + size, total);
    var content := if start <= end then payload[start..end] else "";
    r := Done(Read(Page(content, start, total, if end < total then Some(end) else None)));
  }

  lemma {:induction false} DistinctShape(rows: seq<CitedUrl>)
    ensures Distinct(rows) == [] <==> rows == []
    ensures rows != [] ==> Distinct(rows)[0] == rows[0].url
    ensures forall u :: u in Distinct(rows) <==> exists i :: 0 <= i < |rows| && rows[i].url == u
  {
    if rows != [] {
      var before := rows[..|rows| - 1];
      DistinctShape(before);
      assert rows == before + [rows[|rows| - 1]];
      forall u | exists i :: 0 <= i < |rows| && rows[i].url == u ensures u in Distinct(rows) {
        var i :| 0 <= i < |rows| && rows[i].url == u;
        assert i < |before| ==> before[i].url == u;
      }
    }
  }

  /** The event is cited with this link by a revision made at this time. */
  ghost predicate CitedAt(t: Tables, id: EventId, url: string, at: nat) {
    exists i :: 0 <= i < |t.citations| && IsCited(t, t.citations[i], id, url, at)
  }

  ghost predicate IsCited(t: Tables, c: Citation, id: EventId, url: string, at: nat) {
    c.event == Some(id) && c.url == Some(url) && c.revision in t.revisions && t.revisions[c.revision].changedAt == at
  }

  lemma {:induction false} CitedRowsAre(t: Tables, id: EventId, n: nat, row: CitedUrl)
    requires n <= |t.citations|
    ensures row in CitedRows(t, id, n) <==> exists i :: 0 <= i < n && IsCited(t, t.citations[i], id, row.url, row.changedAt)
  {
    if n > 0 {
      CitedRowsAre(t, id, n - 1, row);
      assert IsCited(t, t.citations[n - 1], id, row.url, row.changedAt) ==> row in CitedRows(t, id, n);
    }
  }

  lemma SameRows(t: Tables, id: EventId, all: seq<CitedUrl>, row: CitedUrl)
    requires multiset(all) == multiset(CitedRows(t, id, |t.citations|))
    ensures row in all <==> CitedAt(t, id, row.url, row.changedAt)
  {
    CitedRowsAre(t, id, |t.citations|, row);
    assert row in multiset(all) <==> row in all;
    assert row in multiset(CitedRows(t, id, |t.citations|)) <==> row in CitedRows(t, id, |t.citations|);
  }

  /** The answer's first link is the newest one; there is a link exactly when one was cited. */
  lemma NewestLinkFirst(t: Tables, id: EventId, limit: nat, rows: seq<CitedUrl>)
    requires IsNewestFirst(CitedRows(t, id, |t.citations|), limit, rows) && limit > 0
    ensures rows == [] <==> forall url, at: nat :: !CitedAt(t, id, url, at)
    ensures rows != [] ==>
              && CitedAt(t, id, rows[0].url, rows[0].changedAt)
              && forall url, at: nat :: CitedAt(t, id, url, at) ==> at <= rows[0].changedAt
  {
    var all: seq<CitedUrl> :|
      && multiset(all) == multiset(CitedRows(t, id, |t.citations|))
      && (forall i, j :: 0 <= i < j < |all| ==> all[i].changedAt >= all[j].changedAt)
      && rows == all[..Min(limit, |all|)];
    forall url, at: nat | CitedAt(t, id, url, at) ensures all != [] && at <= all[0].changedAt {
      SameRows(t, id, all, CitedUrl(url, at));
    }
    if all != [] { SameRows(t, id, all, all[0]); }
  }

  // ---- pages and links --------------------------------------------------------------

  /** How many characters a page may have: what was asked for, or else the default, at most the limit and
      at least one. */
  predicate IsPageLimit(cfg: Config, maxChars: Option<int>, n: nat) {
    var asked := if maxChars.Some? && maxChars.value != 0 then maxChars.value else cfg.rawPageChars as int;
    if asked < 1 || cfg.maxRawPageChars < 1 then n == 1
    else n <= asked && n <= cfg.maxRawPageChars && (n == asked || n == cfg.maxRawPageChars)
  }

  /** A page is the payload from its offset on, as much of it as the limit allows; the next offset is
      where it ends, and there is none at the end of the payload. A negative offset is 0. */
  lemma PageIs(cfg: Config, payload: string, offset: Option<int>, maxChars: Option<int>, limit: nat)
    requires IsPageLimit(cfg, maxChars, limit)
    ensures var page := PageOf(cfg, payload, offset, maxChars);
            && page.total == |payload|
            && page.offset == (if offset.Some? && offset.value >= 0 then offset.value else 0)
            && |page.content| <= limit
            && (page.offset <= |payload| ==> page.content <= payload[page.offset..])
            && (page.next.Some? <==> page.offset + limit < |payload|)
            && (page.next.Some? ==> |page.content| == limit && page.next.value == page.offset + limit)
            && (page.next.None? && page.offset <= |payload| ==> page.content == payload[page.offset..])
  {
    assert PageSize(cfg, maxChars) == limit;
  }

  /** A read of a stored event gives its page, and only a first page touches it: when the last touch is
      older than the throttle, which fails without a partition. A read of a dropped event gives the links. */
  lemma ReadIs(cfg: Config, s: Store, id: EventId, offset: Option<int>, maxChars: Option<int>, rows: seq<CitedUrl>, now: nat)
    ensures var (answer, u) := ReadSpec(cfg, s, id, offset, maxChars, rows, now);
            if id !in s.events then answer == Done(Dropped(Distinct(rows))) && u == s
            else
              var event := s.events[id];
              var due := (offset.None? || offset.value <= 0) && event.touchedAt + cfg.touchMinDays * 86_400_000_000 < now;
              if due && MonthOf(now) !in s.partitions then answer == Crashed && u == s
              else
                && answer == Done(Read(PageOf(cfg, event.content, offset, maxChars)))
                && u == if due then s.(events := s.events[id := event.(touchedAt := now)]) else s
  {
  }

  /** Where a link first occurs. */
  predicate FirstAt(rows: seq<CitedUrl>, url: string, i: nat)
    requires i < |rows|
  {
    rows[i].url == url && forall j :: 0 <= j < i ==> rows[j].url != url
  }

  /** The rows at which the links come up for the first time, in order. */
  predicate AreFirsts(rows: seq<CitedUrl>, urls: seq<string>, at: seq<nat>) {
    && |at| == |urls|
    && (forall k :: 0 <= k < |at| ==> at[k] < |rows| && FirstAt(rows, urls[k], at[k]))
    && (forall k, l :: 0 <= k < l < |at| ==> at[k] < at[l])
  }

  lemma FirstsStay(before: seq<CitedUrl>, row: CitedUrl, urls: seq<string>, at: seq<nat>)
    requires AreFirsts(before, urls, at)
    ensures AreFirsts(before + [row], urls, at)
  {
    forall k | 0 <= k < |at| ensures FirstAt(before + [row], urls[k], at[k]) { assert FirstAt(before, urls[k], at[k]); }
  }

  lemma NewFirst(before: seq<CitedUrl>, row: CitedUrl)
    requires forall i :: 0 <= i < |before| ==> before[i].url != row.url
    ensures FirstAt(before + [row], row.url, |before|)
  {
  }

  lemma FirstsDiffer(rows: seq<CitedUrl>, urls: seq<string>, at: seq<nat>, k: nat, l: nat)
    requires AreFirsts(rows, urls, at) && k < l < |urls|
    ensures urls[k] != urls[l]
  {
    assert FirstAt(rows, urls[k], at[k]) && FirstAt(rows, urls[l], at[l]);
  }

  /** Removing repeats keeps the first occurrence of each link, in order, and no link twice. */
  lemma {:induction false} DistinctKeepsFirsts(rows: seq<CitedUrl>) returns (at: seq<nat>)
    ensures AreFirsts(rows, Distinct(rows), at)
    ensures forall k, l :: 0 <= k < l < |Distinct(rows)| ==> Distinct(rows)[k] != Distinct(rows)[l]
  {
    at := [];
    if rows != [] {
      var before, row := rows[..|rows| - 1], rows[|rows| - 1];
      assert rows == before + [row];
      at := DistinctKeepsFirsts(before);
      FirstsStay(before, row, Distinct(before), at);
      if row.url !in Distinct(before) {
        DistinctShape(before);
        NewFirst(before, row);
        at := at + [|before|];
      }
    }
    forall k, l | 0 <= k < l < |Distinct(rows)| ensures Distinct(rows)[k] != Distinct(rows)[l] {
      FirstsDiffer(rows, Distinct(rows), at, k, l);
    }
  }

  // ---- one logged event -------------------------------------------------------------

  /** The source of a logged event: the built-in one unless one is named. */
  predicate IsLoggedSource(key: Option<string>, source: string) {
    if key.None? || !HasText(key.value) then source == "user_session" else source == Strip(key.value)
  }

  /** The given hash, or that of the text before redaction. */
  function LoggedHash(cfg: Config, args: LogArgs): string {
    if args.sourceHash.Some? && args.sourceHash.value != "" then args.sourceHash.value else cfg.digest(Strip(args.content))
  }

  /** What a logged event stores: the stripped and redacted text with its hash, in the current month. */
  predicate LoggedEventIs(cfg: Config, e: RawEvent, args: LogArgs, source: string, now: nat) {
    && e.content == cfg.redactSecrets(Strip(args.content)) && e.eventType == Cut(Strip(args.eventType), 128)
    && e.sourceHash == Cut(LoggedHash(cfg, args), 64)
    && (args.url.None? ==> e.url == None) && (args.url == Some("") ==> e.url == Some(""))
    && (args.url.Some? && args.url.value != "" ==> e.url == Some(cfg.redactKnown(args.url.value)))
    && e.sourceKey == source && e.createdAt == now && e.touchedAt == now
  }

  predicate LogTakes(cfg: Config, args: LogArgs) {
    && Fits(Strip(args.eventType), 128) && Storable(cfg.redactSecrets(Strip(args.content)))
    && (args.sourceHash.Some? && args.sourceHash.value != "" ==> Fits(args.sourceHash.value, 64))
    && (args.url.Some? && args.url.value != "" ==> Storable(cfg.redactKnown(args.url.value)))
  }

  /** The event that a call asks for. */
  function LoggedEvent(cfg: Config, args: LogArgs, source: string): NewEvent {
    NewEvent(source, Strip(args.eventType), Strip(args.content), LoggedHash(cfg, args), args.url)
  }

  lemma LogAdds(cfg: Config, s: Store, args: LogArgs, now: nat, source: string)
    requires IsLoggedSource(args.sourceKey, source)
    ensures LogSpec(cfg, s, args, now)
            == if !Storable(source) then Crashed
               else if source != "user_session" && !(source in s.sources && s.sources[source]) then Refused(NotFound)
               else if !HasText(args.content) || !HasText(args.eventType) then Refused(Invalid)
               else AddSpec(cfg, s, LoggedEvent(cfg, args, source), now)
  {
    if args.sourceKey.Some? { BlankIff(args.sourceKey.value); }
    BlankIff(args.content);
    BlankIff(args.eventType);
  }

  lemma LoggedEventTakes(cfg: Config, args: LogArgs, source: string, now: nat)
    ensures EventFits(cfg, LoggedEvent(cfg, args, source)) <==> LogTakes(cfg, args)
    ensures LoggedEventIs(cfg, StoredEvent(cfg, LoggedEvent(cfg, args, source), now), args, source, now)
  {
    HexIsStorable(cfg.digest(Strip(args.content)));
  }

  /** A logged event is stored exactly when its source is active, its texts are no blanks, its content is
      not too long, the month has a partition and the columns take it. It gets a fresh id, and nothing
      else changes. */
  lemma LogIs(cfg: Config, s: Store, args: LogArgs, now: nat, source: string)
    requires IsLoggedSource(args.sourceKey, source)
    ensures LogSpec(cfg, s, args, now).Done?
            <==>
            && Storable(source) && (source == "user_session" || (source in s.sources && s.sources[source]))
            && HasText(args.content) && HasText(args.eventType) && |Strip(args.content)| <= cfg.maxRawChars
            && MonthOf(now) in s.partitions && LogTakes(cfg, args)
    ensures LogSpec(cfg, s, args, now).Done? ==>
              var u := LogSpec(cfg, s, args, now).value;
              && u == s.(events := u.events, nextEvent := s.nextEvent + 1) && s.nextEvent in u.events
              && u.events == s.events[s.nextEvent := u.events[s.nextEvent]]
              && LoggedEventIs(cfg, u.events[s.nextEvent], args, source, now)
  {
    LogAdds(cfg, s, args, now, source);
    LoggedEventTakes(cfg, args, source, now);
  }
}
