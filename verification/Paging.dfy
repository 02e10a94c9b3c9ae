/** A client that pages through an event while everything else goes on. */
module Paging {
  import opened Wrappers
  import opened Text
  import opened Hashing
  import opened Calendar
  import opened Database
  import opened RawEvents
  import opened Ingest
  import opened Service
  import opened Retention

  /** One call of a reader, after other steps have run. */
  datatype Round = Round(before: seq<Step>, maxChars: Option<int>, now: nat)

  datatype Transcript = Complete(text: string) | Partial(text: string, next: nat) | Lost

  /** One page in front of what the rest of the calls give. */
  function Before(content: string, rest: Transcript): Transcript {
    match rest
    case Complete(text) => Complete(content + text)
    case Partial(text, next) => Partial(content + text, next)
    case Lost => Lost
  }

  /** A client that follows `next_offset`. */
  function Follow(cfg: Config, s: Store, id: EventId, offset: nat, rounds: seq<Round>): Transcript
    decreases |rounds|
  {
    if rounds == [] then Partial("", offset)
    else
      var u := Run(cfg, s, rounds[0].before);
      var (answer, v) := ReadSpec(cfg, u, id, Some(offset), rounds[0].maxChars, [], rounds[0].now);
      if !answer.Done? || !answer.value.Read? then Lost
      else
        var page := answer.value.page;
        if page.next.None? then Complete(page.content)
        else Before(page.content, Follow(cfg, v, id, page.next.value, rounds[1..]))
  }

  lemma PageContent(cfg: Config, payload: string, offset: nat, maxChars: Option<int>)
    requires offset <= |payload|
    ensures var page := PageOf(cfg, payload, Some(offset), maxChars);
            && page.offset == offset
            && (page.next.None? ==> page.content == payload[offset..])
            && (page.next.Some? ==> offset < page.next.value < |payload| && page.content == payload[offset..page.next.value])
  {
  }

  function AfterRound(cfg: Config, s: Store, id: EventId, offset: nat, round: Round): Store {
    ReadSpec(cfg, Run(cfg, s, round.before), id, Some(offset), round.maxChars, [], round.now).1
  }

  /** A call fails when it finds no event, or is the first and has a touch to write in a month without
      a partition. */
  predicate RoundFails(cfg: Config, u: Store, id: EventId, offset: nat, now: nat) {
    id !in u.events || (offset == 0 && TouchDue(cfg, u.events[id], now) && MonthOf(now) !in u.partitions)
  }

  /** Some call fails before the last page is read. */
  ghost predicate SomeRoundFails(cfg: Config, s: Store, id: EventId, offset: nat, rounds: seq<Round>)
    decreases |rounds|
  {
    rounds != [] &&
    var u := Run(cfg, s, rounds[0].before);
    || RoundFails(cfg, u, id, offset, rounds[0].now)
    || var next := PageOf(cfg, u.events[id].content, Some(offset), rounds[0].maxChars).next;
       next.Some? && SomeRoundFails(cfg, AfterRound(cfg, s, id, offset, rounds[0]), id, next.value, rounds[1..])
  }

  /** What following the pages from `offset` has to give. */
  ghost predicate Reconstructs(payload: string, offset: nat, calls: nat, got: Transcript)
    requires offset <= |payload|
  {
    match got
    case Complete(text) => text == payload[offset..]
    case Partial(text, next) => offset + calls <= next <= |payload| && text == payload[offset..next]
    case Lost => false
  }

  lemma OnePageMore(payload: string, offset: nat, end: nat, calls: nat, rest: Transcript)
    requires offset < end <= |payload| && Reconstructs(payload, end, calls, rest)
    ensures Reconstructs(payload, offset, calls + 1, Before(payload[offset..end], rest))
  {
    assert payload[offset..] == payload[offset..end] + payload[end..];
    if rest.Partial? { assert payload[offset..rest.next] == payload[offset..end] + payload[end..rest.next]; }
  }

  lemma OnePageBefore(payload: string, offset: nat, end: nat, calls: nat, rest: Transcript)
    requires offset < end <= |payload| && (rest == Lost || Reconstructs(payload, end, calls, rest))
    ensures Before(payload[offset..end], rest) == Lost <==> rest == Lost
    ensures rest == Lost || Reconstructs(payload, offset, calls + 1, Before(payload[offset..end], rest))
  {
    if rest != Lost { OnePageMore(payload, offset, end, calls, rest); }
  }

  lemma FollowFirst(cfg: Config, s: Store, id: EventId, offset: nat, rounds: seq<Round>, page: Page)
    requires rounds != []
    requires ReadSpec(cfg, Run(cfg, s, rounds[0].before), id, Some(offset), rounds[0].maxChars, [], rounds[0].now).0 == Done(Read(page))
    ensures Follow(cfg, s, id, offset, rounds)
            == if page.next.None? then Complete(page.content)
               else Before(page.content, Follow(cfg, AfterRound(cfg, s, id, offset, rounds[0]), id, page.next.value, rounds[1..]))
  {
  }

  lemma FollowFails(cfg: Config, s: Store, id: EventId, offset: nat, rounds: seq<Round>)
    requires rounds != [] && RoundFails(cfg, Run(cfg, s, rounds[0].before), id, offset, rounds[0].now)
    ensures Follow(cfg, s, id, offset, rounds) == Lost
  {
  }

  lemma ReadGivesPage(cfg: Config, u: Store, id: EventId, offset: nat, round: Round)
    requires StoreOk(u) && !RoundFails(cfg, u, id, offset, round.now)
    ensures ReadSpec(cfg, u, id, Some(offset), round.maxChars, [], round.now).0
            == Done(Read(PageOf(cfg, u.events[id].content, Some(offset), round.maxChars)))
    ensures var v := ReadSpec(cfg, u, id, Some(offset), round.maxChars, [], round.now).1;
            && StoreOk(v) && id in v.events && v.events[id].content == u.events[id].content
            && v.events[id].touchedAt >= u.events[id].touchedAt
  {
    ReadTouches(cfg, u, id, Some(offset), round.maxChars, round.now);
    EventsTouched(u, ReadSpec(cfg, u, id, Some(offset), round.maxChars, [], round.now).1);
  }

  /** The state and page of one call that does not fail. */
  lemma RoundReads(cfg: Config, s: Store, id: EventId, offset: nat, round: Round)
    requires StoreOk(s) && id in s.events && !RoundFails(cfg, Run(cfg, s, round.before), id, offset, round.now)
    ensures Run(cfg, s, round.before).events[id].content == s.events[id].content
    ensures ReadSpec(cfg, Run(cfg, s, round.before), id, Some(offset), round.maxChars, [], round.now).0
            == Done(Read(PageOf(cfg, s.events[id].content, Some(offset), round.maxChars)))
    ensures var v := AfterRound(cfg, s, id, offset, round);
            StoreOk(v) && id in v.events && v.events[id].content == s.events[id].content
  {
    RunKeepsStore(cfg, s, round.before);
    PayloadNeverChanges(cfg, s, round.before, id);
    ReadGivesPage(cfg, Run(cfg, s, round.before), id, offset, round);
  }

  /** The transcript of a reader is lost exactly when some call fails, and otherwise right. */
  ghost predicate TranscriptIs(cfg: Config, s: Store, id: EventId, offset: nat, rounds: seq<Round>, payload: string)
    requires offset <= |payload|
  {
    var got := Follow(cfg, s, id, offset, rounds);
    && (got == Lost <==> SomeRoundFails(cfg, s, id, offset, rounds))
    && (got == Lost || Reconstructs(payload, offset, |rounds|, got))
  }

  lemma FirstPage(cfg: Config, s: Store, id: EventId, offset: nat, rounds: seq<Round>, payload: string)
    requires rounds != [] && offset <= |payload|
    requires var u := Run(cfg, s, rounds[0].before);
             && !RoundFails(cfg, u, id, offset, rounds[0].now) && u.events[id].content == payload
             && ReadSpec(cfg, u, id, Some(offset), rounds[0].maxChars, [], rounds[0].now).0
                == Done(Read(PageOf(cfg, payload, Some(offset), rounds[0].maxChars)))
    requires var next := PageOf(cfg, payload, Some(offset), rounds[0].maxChars).next;
             next.Some? ==>
               && next.value <= |payload|
               && TranscriptIs(cfg, AfterRound(cfg, s, id, offset, rounds[0]), id, next.value, rounds[1..], payload)
    ensures TranscriptIs(cfg, s, id, offset, rounds, payload)
  {
    PageContent(cfg, payload, offset, rounds[0].maxChars);
    var page := PageOf(cfg, payload, Some(offset), rounds[0].maxChars);
    FollowFirst(cfg, s, id, offset, rounds, page);
    if page.next.Some? {
      OnePageBefore(payload, offset, page.next.value, |rounds| - 1,
                    Follow(cfg, AfterRound(cfg, s, id, offset, rounds[0]), id, page.next.value, rounds[1..]));
    }
  }

  /** The transcript of a reader: lost exactly when some call fails; otherwise the rest of the
      payload, or so far a part of it that grew by at least one character per call. Page sizes are
      free, and so is what else happens between the calls. */
  lemma {:induction false} PagesReconstruct(cfg: Config, s: Store, id: EventId, offset: nat, rounds: seq<Round>)
    requires StoreOk(s) && id in s.events && offset <= |s.events[id].content|
    ensures TranscriptIs(cfg, s, id, offset, rounds, s.events[id].content)
    decreases |rounds|
  {
    if rounds != [] {
      if RoundFails(cfg, Run(cfg, s, rounds[0].before), id, offset, rounds[0].now) {
        FollowFails(cfg, s, id, offset, rounds);
      } else {
        var payload := s.events[id].content;
        RoundReads(cfg, s, id, offset, rounds[0]);
        PageContent(cfg, payload, offset, rounds[0].maxChars);
        var next := PageOf(cfg, payload, Some(offset), rounds[0].maxChars).next;
        if next.Some? { PagesReconstruct(cfg, AfterRound(cfg, s, id, offset, rounds[0]), id, next.value, rounds[1..]); }
        FirstPage(cfg, s, id, offset, rounds, payload);
      }
    }
  }

  /** So as many calls as the payload has characters, and one more, complete it or are lost. */
  lemma PagingTerminates(cfg: Config, s: Store, id: EventId, rounds: seq<Round>)
    requires StoreOk(s) && id in s.events && |rounds| > |s.events[id].content|
    ensures Follow(cfg, s, id, 0, rounds)
            == if SomeRoundFails(cfg, s, id, 0, rounds) then Lost else Complete(s.events[id].content)
  {
    PagesReconstruct(cfg, s, id, 0, rounds);
  }

  // ---- drops that spare the event ---------------------------------------------------

  ghost predicate RoundsSpare(cfg: Config, rounds: seq<Round>, m: nat) {
    forall i :: 0 <= i < |rounds| ==> AllSpare(cfg, rounds[i].before, m)
  }

  lemma RestSpares(cfg: Config, rounds: seq<Round>, m: nat)
    requires rounds != [] && RoundsSpare(cfg, rounds, m)
    ensures AllSpare(cfg, rounds[0].before, m) && RoundsSpare(cfg, rounds[1..], m)
  {
    forall i | 0 <= i < |rounds[1..]| ensures AllSpare(cfg, rounds[1..][i].before, m) { assert rounds[1..][i] == rounds[i + 1]; }
  }

  /** While the event lives through what happens before a call, the call does not fail, and the event
      is touched no earlier than before. */
  lemma SparedRound(cfg: Config, s: Store, id: EventId, offset: nat, round: Round, m: nat)
    requires StoreOk(s) && id in s.events && m <= MonthOf(s.events[id].touchedAt) && AllSpare(cfg, round.before, m)
    requires offset == 0 ==> MonthOf(round.now) in Run(cfg, s, round.before).partitions
    ensures !RoundFails(cfg, Run(cfg, s, round.before), id, offset, round.now)
    ensures var v := AfterRound(cfg, s, id, offset, round);
            StoreOk(v) && id in v.events && m <= MonthOf(v.events[id].touchedAt)
  {
    var u := Run(cfg, s, round.before);
    RunSpares(cfg, s, round.before, id, m);
    RunKeepsStore(cfg, s, round.before);
    ReadGivesPage(cfg, u, id, offset, round);
    MonthMonotone(s.events[id].touchedAt, AfterRound(cfg, s, id, offset, round).events[id].touchedAt);
  }

  /** Drops that spare the month of a touch make no call fail. */
  lemma {:induction false} SparedNeverFails(cfg: Config, s: Store, id: EventId, offset: nat, rounds: seq<Round>, m: nat)
    requires StoreOk(s) && id in s.events && m <= MonthOf(s.events[id].touchedAt) && RoundsSpare(cfg, rounds, m)
    requires offset == 0 && rounds != [] ==> MonthOf(rounds[0].now) in Run(cfg, s, rounds[0].before).partitions
    ensures !SomeRoundFails(cfg, s, id, offset, rounds)
    decreases |rounds|
  {
    if rounds != [] {
      RestSpares(cfg, rounds, m);
      SparedRound(cfg, s, id, offset, rounds[0], m);
      var u := Run(cfg, s, rounds[0].before);
      var next := PageOf(cfg, u.events[id].content, Some(offset), rounds[0].maxChars).next;
      if next.Some? { SparedNeverFails(cfg, AfterRound(cfg, s, id, offset, rounds[0]), id, next.value, rounds[1..], m); }
    }
  }

  // ---- what goes in comes out -------------------------------------------------------

  lemma LoggedEvent(cfg: Config, s: Store, args: LogArgs, now: nat)
    requires LogSpec(cfg, s, args, now).Done?
    ensures var u := LogSpec(cfg, s, args, now).value;
            && s.nextEvent in u.events
            && u.events[s.nextEvent].content == cfg.redactSecrets(Strip(args.content))
            && u.events[s.nextEvent].touchedAt == now
  {
  }

  /** A reader who pages through a logged event gets the logged text, stripped and redacted,
      whatever else runs before and between the calls, unless a call fails. */
  lemma LoggedTextIsReadBack(cfg: Config, s: Store, args: LogArgs, now: nat, rounds: seq<Round>)
    requires StoreOk(s) && LogSpec(cfg, s, args, now).Done?
    requires |rounds| > |cfg.redactSecrets(Strip(args.content))|
    ensures var u := LogSpec(cfg, s, args, now).value;
            Follow(cfg, u, s.nextEvent, 0, rounds)
            == if SomeRoundFails(cfg, u, s.nextEvent, 0, rounds) then Lost else Complete(cfg.redactSecrets(Strip(args.content)))
  {
    LogStepKeeps(cfg, s, args, now);
    LoggedEvent(cfg, s, args, now);
    PagingTerminates(cfg, LogSpec(cfg, s, args, now).value, s.nextEvent, rounds);
  }

  lemma WrittenUnit(cfg: Config, s: Store, unit: Unit, args: IngestArgs, now: nat)
    requires UnitSpec(cfg, s, unit, args, now).0.Done? && !UnitSpec(cfg, s, unit, args, now).0.value.Same?
    ensures var (r, u) := UnitSpec(cfg, s, unit, args, now);
            && r.value.event in u.events
            && u.events[r.value.event].content == cfg.redactSecrets(unit.canonical)
            && u.events[r.value.event].touchedAt == now
  {
  }

  /** Whether an ingest was created or changed, and the text that it stored. */
  predicate Stores(cfg: Config, s: Store, args: IngestArgs, now: nat) {
    var r := IngestSpec(cfg, s, args, now).0;
    r.Done? && !r.value.Same?
  }

  function IngestedText(cfg: Config, args: IngestArgs): string {
    cfg.redactSecrets(CanonicalizeContent(Strip(args.content)))
  }

  lemma IngestedEvent(cfg: Config, s: Store, args: IngestArgs, now: nat)
    requires Stores(cfg, s, args, now)
    ensures var (r, u) := IngestSpec(cfg, s, args, now);
            && r.value.event in u.events
            && u.events[r.value.event].content == IngestedText(cfg, args)
            && u.events[r.value.event].touchedAt == now
  {
    var source := CrawlSource(s.sources, args.sourceKey);
    var unit := UnitOf(cfg, source.value, args);
    assert IngestSpec(cfg, s, args, now) == UnitSpec(cfg, s, unit, args, now);
    WrittenUnit(cfg, s, unit, args, now);
  }

  /** The same for a created or changed ingest and its canonical text. */
  lemma IngestedTextIsReadBack(cfg: Config, s: Store, args: IngestArgs, now: nat, rounds: seq<Round>)
    requires StoreOk(s) && Stores(cfg, s, args, now)
    requires |rounds| > |IngestedText(cfg, args)|
    ensures var (r, u) := IngestSpec(cfg, s, args, now);
            Follow(cfg, u, r.value.event, 0, rounds)
            == if SomeRoundFails(cfg, u, r.value.event, 0, rounds) then Lost else Complete(IngestedText(cfg, args))
  {
    IngestStepKeeps(cfg, s, args, now);
    IngestedEvent(cfg, s, args, now);
    var (r, u) := IngestSpec(cfg, s, args, now);
    PagingTerminates(cfg, u, r.value.event, rounds);
  }
}
