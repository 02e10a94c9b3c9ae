/** Concrete stores and runs: they meet the premises of the theorems, and each shows a difference
    between the code and its documentation happening. */
module Examples {
  import opened Wrappers
  import opened Text
  import opened Hashing
  import opened Calendar
  import opened Database
  import opened Namespaces
  import opened RawEvents
  import opened Partitions
  import opened Facts
  import opened FactWrites
  import opened BatchLaws
  import opened Ingest
  import opened Service
  import opened Retention
  import opened KeyStability
  import P = Policies

  const ZEROS: Hex64 := seq(64, i => '0')

  /** The default settings, with nothing to redact. */
  const PLAIN: Config :=
    Config((s: string) => s, (s: string) => s, (a: Attrs) => a, (a: Attrs) => a, (s: string) => ZEROS, (s: string) => s,
           (s: string) => None, 20_000, 200_000, 8_000, 20_000, 5, 30, 6)

  lemma OneChar(c: char)
    requires !IsSpace(c)
    ensures Strip([c]) == [c]
  {
    StripTrimmed([c]);
  }

  // ---- facts ------------------------------------------------------------------------

  /** Two namespaces and nothing else. */
  const TWO_NAMESPACES: Store := NOTHING_YET.(namespaces := SMALL_ROWS)

  lemma TwoNamespacesOk()
    ensures StoreOk(TWO_NAMESPACES)
  {
    SmallRowsOk();
  }

  function Creating(title: string, key: Option<string>, ns: Option<string>, parts: map<string, string>): WriteRequest {
    WriteRequest("create", title, "s", "c", "r", 0, key, ns, parts, [], None, None, None)
  }

  function PreparedFor(title: string, key: string): Prepared {
    Prepared(key, "a.b", Fact, Create, Value(title, "s", "c", None, None), "r", [], 0, None)
  }

  lemma FieldsAre(title: string, key: string, req: WriteRequest)
    requires req == Creating(title, req.factKey, req.namespace, req.parts)
    requires title != "" && Trimmed(title)
    ensures PrepareFields(PLAIN, req, key, "a.b", Fact) == Ok(PreparedFor(title, key))
  {
    StripTrimmed(title);
    OneChar('s');
    OneChar('c');
    OneChar('r');
    assert "s" == ['s'] && "c" == ['c'] && "r" == ['r'];
    var fields := PrepareFields(PLAIN, req, key, "a.b", Fact);
    assert fields.Ok? && fields.value.refs == [];
  }

  lemma KeyUnderAB(c: char)
    requires 'a' <= c <= 'z'
    ensures ValidateKey(SMALL_ROWS, "a.b." + [c]) == Done("a.b")
  {
    var key := "a.b." + [c];
    SmallKeyIsAccepted(c);
    LongerOfTwo(SMALL_ROWS, "a", "a.b", key);
    assert key[|key| - 1] == c;
    StripTrimmed(key);
    SmallRowsOk();
    AcceptedKeyIsStorable("a.b", SMALL_ROWS["a.b"].template, key);
  }

  lemma GivenKeyIsPrepared(title: string, c: char)
    requires 'a' <= c <= 'z' && title != "" && Trimmed(title)
    ensures Prepare(PLAIN, SMALL_ROWS, Creating(title, Some("a.b." + [c]), None, map[])) == Done(PreparedFor(title, "a.b." + [c]))
  {
    var key := "a.b." + [c];
    KeyUnderAB(c);
    assert key[|key| - 1] == c;
    StripTrimmed(key);
    FieldsAre(title, key, Creating(title, Some(key), None, map[]));
  }

  lemma FreshKeyGoes(title: string, key: string)
    ensures Decide(map[], PreparedFor(title, key), None) == Go
  {
  }

  lemma PlainTitleFits(c: char, txnNow: nat)
    requires 'a' <= c <= 'z'
    ensures !FlushBreaks(PLAIN, TWO_NAMESPACES, PreparedFor("t", "a.b." + [c]), txnNow)
  {
    assert "s" == ['s'] && "c" == ['c'] && "r" == ['r'] && "t" == ['t'];
  }

  const GOOD: Item := Call(Creating("t", Some("a.b.c"), None, map[]), 0)
  const BAD: Item := Call(Creating("t\0t", Some("a.b.d"), None, map[]), 0)

  lemma GoodAndBad()
    ensures JobOf(PLAIN, SMALL_ROWS, GOOD) == Job(PreparedFor("t", "a.b.c"), 0)
    ensures JobOf(PLAIN, SMALL_ROWS, BAD) == Job(PreparedFor("t\0t", "a.b.d"), 0)
  {
    assert "a.b." + ['c'] == "a.b.c" && "a.b." + ['d'] == "a.b.d";
    GivenKeyIsPrepared("t", 'c');
    GivenKeyIsPrepared("t\0t", 'd');
  }

  lemma BadBreaks(txnNow: nat)
    ensures Breaks(PLAIN, TWO_NAMESPACES, Job(PreparedFor("t\0t", "a.b.d"), 0), txnNow)
  {
    FreshKeyGoes("t\0t", "a.b.d");
    assert "t\0t"[1] == NUL;
  }

  lemma TwoBreak(txnNow: nat)
    ensures var two := [Job(PreparedFor("t", "a.b.c"), 0), Job(PreparedFor("t\0t", "a.b.d"), 0)];
            BatchSpec(PLAIN, TWO_NAMESPACES, two, 2, txnNow) == Crashed
  {
    var two := [Job(PreparedFor("t", "a.b.c"), 0), Job(PreparedFor("t\0t", "a.b.d"), 0)];
    TwoNamespacesOk();
    BadBreaks(txnNow);
    assert "a.b.c"[4] != "a.b.d"[4];
    BatchCompletesIff(PLAIN, TWO_NAMESPACES, two, 2, txnNow);
    assert Breaks(PLAIN, TWO_NAMESPACES, two[1], txnNow);
    ItemsStandAloneIff(PLAIN, TWO_NAMESPACES, two, 2, txnNow);
  }

  lemma OneStands(txnNow: nat)
    ensures BatchSpec(PLAIN, TWO_NAMESPACES, [Job(PreparedFor("t", "a.b.c"), 0)], 1, txnNow).Done?
  {
    TwoNamespacesOk();
    GoodStands(txnNow);
    BatchCompletesIff(PLAIN, TWO_NAMESPACES, [Job(PreparedFor("t", "a.b.c"), 0)], 1, txnNow);
  }

  /** An item that the service accepts on its own is lost with an item whose title has the character
      0: nothing before the database refuses that. */
  lemma NulTitleLosesTheBatch(txnNow: nat)
    ensures BatchReply(PLAIN, TWO_NAMESPACES, [GOOD], txnNow).Done?
    ensures BatchReply(PLAIN, TWO_NAMESPACES, [GOOD, BAD], txnNow) == Crashed
    ensures Next(PLAIN, TWO_NAMESPACES, WriteMany([GOOD, BAD], txnNow)) == TWO_NAMESPACES
  {
    JobsOfItems();
    OneStands(txnNow);
    TwoBreak(txnNow);
  }

  lemma JobsOfItems()
    ensures Jobs(PLAIN, SMALL_ROWS, [GOOD]) == [Job(PreparedFor("t", "a.b.c"), 0)]
    ensures Jobs(PLAIN, SMALL_ROWS, [GOOD, BAD]) == [Job(PreparedFor("t", "a.b.c"), 0), Job(PreparedFor("t\0t", "a.b.d"), 0)]
  {
    GoodAndBad();
  }

  lemma GoodStands(txnNow: nat)
    ensures !Breaks(PLAIN, TWO_NAMESPACES, Job(PreparedFor("t", "a.b.c"), 0), txnNow)
  {
    FreshKeyGoes("t", "a.b.c");
    assert "a.b." + ['c'] == "a.b.c";
    PlainTitleFits('c', txnNow);
  }

  const LONG_STATUS: string := seq(32, i => 'x') + " "

  /** A status with one space too many: the columns cut it, the comparison does not, and the same
      write again makes a second revision of the same stored value. */
  lemma SpaceRepeatsASnapshot(now: nat)
    ensures var p := PreparedFor("t", "a.b.c");
            var first := p.(value := p.value.(status := Some(LONG_STATUS)));
            var second := first.(base := 1, change := Replace);
            var row := StoredRow(first, None, now);
            && Decide(map[], first, None) == Go && RowFits(first)
            && Decide(map[], second, Some(row)) == Go && RepeatsRow(second, Some(row))
  {
    var p := PreparedFor("t", "a.b.c");
    var first := p.(value := p.value.(status := Some(LONG_STATUS)));
    var second := first.(base := 1, change := Replace);
    assert LONG_STATUS[32] == ' ' && |LONG_STATUS| == 33;
    assert |Cut(LONG_STATUS, 32)| == 32;
    WriteTwiceIsOnceIff(map[], first, second, None, now);
    assert "t" == ['t'] && "s" == ['s'] && "c" == ['c'] && "a.b.c" == ['a', '.', 'b', '.', 'c'];
  }

  // ---- keys -------------------------------------------------------------------------

  const PARTS: map<string, string> := map["x" := "b", "y" := "c"]
  const FROM_A: WriteRequest := Creating("t", None, Some("a"), PARTS)

  lemma FromANamesA()
    ensures Names(FROM_A, "a", PARTS)
  {
    OneChar('a');
    assert Lower("a") == "a" && "a" == ['a'];
  }

  lemma FromABuilds()
    ensures BuildsKey(PLAIN, TWO_NAMESPACES, "a", PARTS, "a.b.c")
    ensures KeySpec(PLAIN, SMALL_ROWS, FROM_A) == Done("a.b.c")
  {
    LongerNamespaceTakesTheKey(PLAIN.fold);
    SmallRowsOk();
    FromANamesA();
    BuildsKeyIsKeySpec(PLAIN, TWO_NAMESPACES, FROM_A, "a", PARTS, "a.b.c");
  }

  lemma FromAIsPrepared()
    ensures Prepare(PLAIN, SMALL_ROWS, FROM_A) == Done(PreparedFor("t", "a.b.c"))
  {
    FromABuilds();
    OwnedByAB();
    FieldsAre("t", "a.b.c", FROM_A);
    PrepareIs(FROM_A, "a.b.c", "a.b");
  }

  lemma OwnedByAB()
    ensures ValidateKey(SMALL_ROWS, "a.b.c") == Done("a.b")
  {
    KeyUnderAB('c');
    assert "a.b." + ['c'] == "a.b.c";
  }

  lemma PrepareIs(req: WriteRequest, key: string, ns: string)
    requires KeySpec(PLAIN, SMALL_ROWS, req) == Done(key) && ValidateKey(SMALL_ROWS, key) == Done(ns) && ns in SMALL_ROWS
    ensures Prepare(PLAIN, SMALL_ROWS, req) == AsOutcome(PrepareFields(PLAIN, req, key, ns, SMALL_ROWS[ns].defaultKind))
  {
  }

  lemma FromACreates(now: nat, txnNow: nat)
    ensures Creates(PLAIN, TWO_NAMESPACES, FROM_A, now, txnNow)
  {
    var p := PreparedFor("t", "a.b.c");
    FromAIsPrepared();
    FreshKeyGoes("t", "a.b.c");
    assert "a.b." + ['c'] == "a.b.c";
    PlainTitleFits('c', txnNow);
    TwoNamespacesOk();
    WriteCrashesIff(PLAIN, TWO_NAMESPACES, p, now, txnNow);
    AtomicWriteIsSerialStep(PLAIN, TWO_NAMESPACES, p, now, txnNow);
  }

  /** A fact is created from namespace `a`, and a later template of `a` builds another key from the
      same parts. */
  lemma CreatedKeyChanges(now: nat, txnNow: nat)
    ensures Creates(PLAIN, TWO_NAMESPACES, FROM_A, now, txnNow)
    ensures BuildsKey(PLAIN, TWO_NAMESPACES, "a", PARTS, "a.b.c")
    ensures !AlwaysBuilds(PLAIN, Next(PLAIN, TWO_NAMESPACES, Write(FROM_A, now, txnNow)), "a", PARTS, "a.b.c")
  {
    FromABuilds();
    FromANamesA();
    FromACreates(now, txnNow);
    TwoNamespacesOk();
    LongerNamespaceTakesTheKey(PLAIN.fold);
    CreatedKeyIsStableIff(PLAIN, TWO_NAMESPACES, FROM_A, now, txnNow, "a", PARTS, "a.b.c");
  }

  // ---- the check of a crawler -------------------------------------------------------

  function Ingesting(hash: Option<string>): IngestArgs {
    IngestArgs("w", "c", None, None, hash, None, "source_unit", None)
  }

  /** A source, and a partition for the month. */
  function Crawled(now: nat, ledger: map<UnitId, UnitRow>): Store {
    NOTHING_YET.(sources := map["w" := true], partitions := {MonthOf(now)}, ledger := ledger)
  }

  const KNOWN_UNIT: UnitId := UnitId("w", "", "hash:" + ZEROS)

  lemma UnitOfC(hash: Option<string>)
    ensures CrawlSource(map["w" := true], "w") == Done("w") && Strip("c") == "c"
    ensures var u := UnitOf(PLAIN, "w", Ingesting(hash));
            u.id == KNOWN_UNIT && u.contentHash == ZEROS && CanLookUp(u.id)
            && u.sourceHash == if CleanHash(hash) != "" then CleanHash(hash) else ZEROS
  {
    OneChar('w');
    OneChar('c');
    assert "w" == ['w'] && "c" == ['c'];
    HexIsStorable(ZEROS);
  }

  /** The unit was ingested with a source hash and is checked and ingested again without one: the
      check says unchanged, the ingest says changed. */
  lemma BlankHashMispredicts(now: nat)
    ensures var s := Crawled(now, map[KNOWN_UNIT := UnitRow(None, ZEROS, "e1", 0, None, 0, 0)]);
            && Classify(PLAIN, s.ledger, "w", None, CandidateFor(Ingesting(None))) == Done(IsUnchanged)
            && !IsSame(s.ledger, UnitOf(PLAIN, "w", Ingesting(None)))
            && !Foretells(Classify(PLAIN, s.ledger, "w", None, CandidateFor(Ingesting(None))),
                          IngestSpec(PLAIN, s, Ingesting(None), now).0)
  {
    var s := Crawled(now, map[KNOWN_UNIT := UnitRow(None, ZEROS, "e1", 0, None, 0, 0)]);
    UnitOfC(None);
    assert CleanHash(None) == "";
    StatusOfUnit(PLAIN, s.ledger, "w", Ingesting(None));
    assert |"e1"| != |ZEROS|;
    CheckForetellsIngestIff(PLAIN, s, "w", Ingesting(None), now);
  }

  const WIDE_HASH: string := seq(65, i => 'a')

  lemma WideHashIsClean()
    ensures CleanHash(Some(WIDE_HASH)) == WIDE_HASH && |WIDE_HASH| == 65 && !Fits(WIDE_HASH, HASH_WIDTH)
  {
    StripTrimmed(WIDE_HASH);
    assert Lower(WIDE_HASH) == WIDE_HASH;
    assert WIDE_HASH[64] != ' ';
  }

  /** A source hash of 65 characters: the check says unknown, the ingest fails in the database. */
  lemma WideHashMispredicts(now: nat)
    ensures var s := Crawled(now, map[]);
            && Classify(PLAIN, s.ledger, "w", None, CandidateFor(Ingesting(Some(WIDE_HASH)))) == Done(Unknown)
            && IngestSpec(PLAIN, s, Ingesting(Some(WIDE_HASH)), now) == (Crashed, s)
  {
    var s, args := Crawled(now, map[]), Ingesting(Some(WIDE_HASH));
    UnitOfC(Some(WIDE_HASH));
    WideHashIsClean();
    StatusOfUnit(PLAIN, s.ledger, "w", args);
    var u := UnitOf(PLAIN, "w", args);
    OneLineIsCanonical();
    assert !EventFits(PLAIN, NewEventOf(u, args));
    assert AddSpec(PLAIN, s, NewEventOf(u, args), now).Crashed?;
  }

  lemma OneLineIsCanonical()
    ensures CanonicalizeContent(Strip("c")) == "c"
  {
    OneChar('c');
    assert "c" == ['c'];
    CanonicalOfLines(["c"], []);
    assert RStripAll(["c"]) == ["c"];
  }

  // ---- retention --------------------------------------------------------------------

  const LOGGED: LogArgs := LogArgs("chat", "c", None, None, None)

  function Jan30(year: nat): nat { FirstInstant(12 * year) + 29 * DAY }

  function March1(year: nat): nat { FirstInstant(12 * year + 2) }

  function August1(year: nat): nat { FirstInstant(12 * year + 7) }

  /** Maintenance, and an event logged on 30 January. */
  function InJanuary(year: nat): seq<Step> {
    [Maintain(Jan30(year), Jan30(year)), LogEvent(LOGGED, Jan30(year))]
  }

  /** Maintenance again, and the event read on 1 March. */
  function InMarch(year: nat): seq<Step> {
    [Maintain(March1(year), March1(year)), ReadEvent(0, None, None, March1(year))]
  }

  function UntilMarch(year: nat): seq<Step> {
    InJanuary(year) + InMarch(year)
  }

  lemma RunTwo(s: Store, a: Step, b: Step)
    ensures Run(PLAIN, s, [a, b]) == Next(PLAIN, Next(PLAIN, s, a), b)
  {
    RunOfOne(PLAIN, s, a);
    assert [a, b] == [a] + [b];
    RunMore(PLAIN, s, [a], b);
  }

  lemma MonthsOfExample(year: nat)
    requires !IsLeap(year)
    ensures MonthOf(Jan30(year)) == 12 * year && MonthOf(March1(year)) == 12 * year + 2 && MonthOf(August1(year)) == 12 * year + 7
    ensures Jan30(year) + 30 * DAY == March1(year)
  {
    JanuaryAndMarch(year);
    MonthStartSpread(12 * year + 7, 12 * year + 8);
    MonthsTile(August1(year), 12 * year + 7);
  }

  lemma LoggedIsStored(s: Store, now: nat)
    requires MonthOf(now) in s.partitions && s.nextEvent == 0
    ensures var u := Next(PLAIN, s, LogEvent(LOGGED, now));
            && u == s.(events := u.events, nextEvent := 1) && 0 in u.events && u.events[0].touchedAt == now
  {
    OneChar('c');
    StripTrimmed("chat");
    assert "c" == ['c'] && "chat" == ['c', 'h', 'a', 't'] && USER_SESSION == "user_session";
    HexIsStorable(ZEROS);
    SessionIsStorable();
    assert EventFits(PLAIN, NewEvent(USER_SESSION, "chat", "c", ZEROS, None));
  }

  lemma SessionIsStorable()
    ensures Storable(USER_SESSION)
  {
    assert USER_SESSION == ['u', 's', 'e', 'r', '_', 's', 'e', 's', 's', 'i', 'o', 'n'];
  }

  lemma Maintained(s: Store, t: nat)
    requires HasPartitionName(MonthOf(t)) && HasPartitionName(MonthOf(t) + 1)
    ensures var u := Next(PLAIN, s, Maintain(t, t));
            u.nextEvent == s.nextEvent && MonthOf(t) in u.partitions && MaintainSpec(PLAIN, s, t, t).Done?
  {
  }

  lemma AfterJanuary(year: nat)
    requires !IsLeap(year) && 1_000 <= year <= 9_997
    ensures var u := Run(PLAIN, NOTHING_YET, InJanuary(year)); StoreOk(u) && 0 in u.events && u.events[0].touchedAt == Jan30(year)
  {
    MonthsOfExample(year);
    var steps := InJanuary(year);
    RunTwo(NOTHING_YET, steps[0], steps[1]);
    Maintained(NOTHING_YET, Jan30(year));
    LoggedIsStored(Next(PLAIN, NOTHING_YET, steps[0]), Jan30(year));
    RunKeepsStore(PLAIN, NOTHING_YET, steps);
  }

  /** A maintenance run in March spares an event of January. */
  lemma MarchMaintenance(s: Store, year: nat)
    requires StoreOk(s) && 0 in s.events && s.events[0].touchedAt == Jan30(year)
    requires !IsLeap(year) && 1_000 <= year <= 9_997
    ensures var u := Next(PLAIN, s, Maintain(March1(year), March1(year)));
            && StoreOk(u) && 0 in u.events && u.events[0].touchedAt == Jan30(year) && MonthOf(March1(year)) in u.partitions
  {
    MonthsOfExample(year);
    var step := Maintain(March1(year), March1(year));
    Maintained(s, March1(year));
    StepKeepsStore(PLAIN, s, step);
    StepSpares(PLAIN, s, step, 0);
    DropStepDrops(PLAIN, s, step);
  }

  /** The read comes exactly thirty days after the touch, so it writes none. */
  lemma MarchRead(s: Store, year: nat)
    requires StoreOk(s) && 0 in s.events && s.events[0].touchedAt == Jan30(year) && !IsLeap(year)
    ensures var step := ReadEvent(0, None, None, March1(year));
            && ReadAt(PLAIN, s, step, 0, March1(year))
            && 0 in Next(PLAIN, s, step).events && Next(PLAIN, s, step).events[0].touchedAt == Jan30(year)
  {
    MonthsOfExample(year);
    assert !TouchDue(PLAIN, s.events[0], March1(year));
    ReadRenews(PLAIN, s, ReadEvent(0, None, None, March1(year)), 0, March1(year));
  }

  lemma AugustMaintenance(s: Store, year: nat)
    requires StoreOk(s) && 0 in s.events && s.events[0].touchedAt == Jan30(year)
    requires !IsLeap(year) && 1_000 <= year <= 9_997
    ensures 0 !in Next(PLAIN, s, Maintain(August1(year), August1(year))).events
  {
    MonthsOfExample(year);
    Maintained(s, August1(year));
    StepTakesIff(PLAIN, s, Maintain(August1(year), August1(year)), 0);
  }

  /** An event is logged on 30 January and read on 1 March; on 1 August, five months after it was
      read, maintenance drops it. */
  lemma MarchReadIsDropped(year: nat)
    requires !IsLeap(year) && 1_000 <= year <= 9_997
    ensures 0 in Run(PLAIN, NOTHING_YET, UntilMarch(year)).events
    ensures 0 !in Next(PLAIN, Run(PLAIN, NOTHING_YET, UntilMarch(year)), Maintain(August1(year), August1(year))).events
    ensures MonthOf(August1(year)) == MonthOf(March1(year)) + 5
  {
    MonthsOfExample(year);
    AfterJanuary(year);
    var s, steps := Run(PLAIN, NOTHING_YET, InJanuary(year)), InMarch(year);
    RunAppend(PLAIN, NOTHING_YET, InJanuary(year), steps);
    RunTwo(s, steps[0], steps[1]);
    MarchMaintenance(s, year);
    MarchRead(Next(PLAIN, s, steps[0]), year);
    RunKeepsStore(PLAIN, NOTHING_YET, UntilMarch(year));
    AugustMaintenance(Run(PLAIN, NOTHING_YET, UntilMarch(year)), year);
  }

  // ---- the approval prompt ----------------------------------------------------------

  function Policy(content: string): P.NoteArgs {
    P.NoteArgs("k", "t", content, true, 0)
  }

  lemma PolicyIsChecked(c: char)
    requires 'a' <= c <= 'z'
    ensures P.Checked(PLAIN, Policy([c])) == Ok(Policy([c])) && Storable("k") && Strip("k") == "k"
  {
    OneChar('k');
    OneChar('t');
    OneChar(c);
    assert "k" == ['k'] && "t" == ['t'];
  }

  lemma PolicySaves(notes: P.Notes, c: char, via: string, now: nat)
    requires 'a' <= c <= 'z' && (via == "rest" || via == "mcp_elicitation")
    requires "k" in notes ==> notes["k"].content != [c]
    ensures P.UpsertSpec(PLAIN, notes, Policy([c]), Some(via), now).0.Saved?
    ensures "k" in P.UpsertSpec(PLAIN, notes, Policy([c]), Some(via), now).1
    ensures P.UpsertSpec(PLAIN, notes, Policy([c]), Some(via), now).1["k"].isPolicy
    ensures P.UpsertSpec(PLAIN, notes, Policy([c]), Some(via), now).1["k"].content == [c]
  {
    PolicyIsChecked(c);
    assert "rest" == ['r', 'e', 's', 't'];
    assert "mcp_elicitation" == ['m', 'c', 'p', '_', 'e', 'l', 'i', 'c', 'i', 't', 'a', 't', 'i', 'o', 'n'];
    assert "t" == ['t'];
  }

  lemma RunOfTwo(project: string, s: P.State, a: P.Step, b: P.Step)
    ensures P.Run(PLAIN, project, s, [a, b]) == P.Do(PLAIN, project, P.Do(PLAIN, project, s, a), b)
  {
    var steps := [a, b];
    assert steps[..1] == [a] && steps[..1][..0] == [];
    assert P.Run(PLAIN, project, s, []) == s;
    assert P.Run(PLAIN, project, s, [a]) == P.Do(PLAIN, project, s, a);
  }

  /** The call after its plan. */
  function PlannedCall(project: string): P.State {
    P.Do(PLAIN, project, P.Start(map[]), P.Step.Plan(0, Policy("c"), true))
  }

  /** A save over REST and the answer come before the apply. */
  function BeforeApply(project: string, now: nat): P.State {
    P.Run(PLAIN, project, PlannedCall(project), [P.RestPut(Policy("d"), now), P.Step.Reply(0, P.Accepted(true))])
  }

  lemma PlannedAsks(project: string)
    ensures P.PolicyApproval(PLAIN, project, map[], Policy("c"), true).Ask?
    ensures PlannedCall(project).notes == map[] && PlannedCall(project).history == []
    ensures 0 in PlannedCall(project).calls && PlannedCall(project).calls[0].approval.Ask? && PlannedCall(project).calls[0].answer.None?
    ensures PlannedCall(project).calls[0].args == Policy("c")
  {
    PolicyIsChecked('c');
    assert "c" == ['c'];
  }

  lemma PutAndAnswered(project: string, now: nat)
    ensures var u := BeforeApply(project, now);
            && "k" in u.notes && u.notes["k"].isPolicy && u.notes["k"].content == "d" && |u.history| == 1
            && 0 in u.calls && u.calls[0].answer == Some(P.Accepted(true))
  {
    var put, answer := P.RestPut(Policy("d"), now), P.Step.Reply(0, P.Accepted(true));
    PlannedAsks(project);
    PolicyIsChecked('d');
    assert "d" == ['d'];
    PolicySaves(map[], 'd', "rest", now);
    RunOfTwo(project, PlannedCall(project), put, answer);
    var w := P.Do(PLAIN, project, PlannedCall(project), put);
    assert |w.history| == 1 && w.calls == PlannedCall(project).calls;
  }

  /** Plan, a save over REST, the answer, apply: the user accepts "Add this binding policy" for what
      is a change of one. */
  lemma HeadlineIsStale(project: string, now: nat)
    ensures var u := BeforeApply(project, now);
            var v := P.Do(PLAIN, project, u, P.Apply(0, now));
            && |v.history| == 2 && v.history[1].author.Mcp? && v.history[1].author.call.approval.Ask?
            && P.PlanNote(PLAIN, u.notes, Policy("c")).Done?
            && v.history[1].author.call.approval.prompt != P.ApprovalPrompt(project, P.PlanNote(PLAIN, u.notes, Policy("c")).value)
  {
    PlannedAsks(project);
    PutAndAnswered(project, now);
    assert "c" == ['c'] && "c"[0] != "d"[0];
    PolicySaves(BeforeApply(project, now).notes, 'c', "mcp_elicitation", now);
    PolicyIsChecked('c');
    P.PromptIsCurrentIff(PLAIN, project, P.Start(map[]), 0, Policy("c"),
                         [P.RestPut(Policy("d"), now), P.Step.Reply(0, P.Accepted(true))], now);
  }
}
