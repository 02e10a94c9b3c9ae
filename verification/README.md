# A verified model of the agentic memory service

The service keeps, for a project, namespaces that own key templates, facts with an ordered revision
history, raw events in monthly partitions, an ingest ledger for crawled sources, and notes, some of
which are binding policies. This project models that state and the operations that change it in
Dafny, and proves what the service promises over whole runs and over every interleaving.

## How it is laid out

| files | content |
|---|---|
| `Text`, `Hashing`, `Slugs`, `KeyTemplates`, `Patterns`, `Calendar` | strings, canonical text, slugs, the key printer and parser, the regular expressions as languages, Gregorian months |
| `Database` | the rows of one project as values, and `Session`, the object whose `db` a transaction changes |
| `Namespaces`, `RawEvents`, `Partitions`, `Ingest`, `Policies` | one service each: a specification function for every operation, the method that carries it out in place, and what follows |
| `Facts`, `SerialWrites`, `FactProtocol`, `ProtocolRuns` | one fact write; serial runs of writes; the locking protocol of concurrent writers, step by step: what it never does, and what it always lets happen |
| `FactWrites`, `BatchLaws` | `write_fact` and `write_facts` in one session, flush by flush and savepoint by savepoint, and the proof that they are steps of a serial run |
| `WriteAnswers`, `UnitIdentity`, `NoteCalls` | what a write, an ingest, a check and a note call answer and store, read off their arguments and the rows they meet |
| `Service`, `Retention`, `Paging`, `KeyStability`, `LedgerRuns` | runs of all operations on one store, and the promises that span them |
| `Examples` | concrete stores and runs that meet the premises of the theorems and show most of the differences below happening |

A method that changes a `Session` is proved equal to its specification function (`WriteSpec`,
`BatchSpec`, `UnitSpec`, `DropSpec` and so on). The theorems are about those functions and about
`Run`, which strings them together. In `FactProtocol` the atomic write is taken apart again: begin,
lock and check, flush, record, commit or abort, for any number of clients, each write with the request
and the active sources that it sees at its turn. The answers that clients get are proved to be those
of one serial run, the same reference that `BatchLaws` ties the session's code to.

An instant is a number of microseconds, a month is `12 * year + month - 1`. Every clock reading is a
parameter of its step, so no theorem assumes that clocks agree or advance unless it says so.
Hashing, redaction, Unicode folding and UUID parsing are arbitrary functions in `Config`; a digest is
64 hex characters, and where a property needs it folding keeps ASCII text (`KeepsAscii`).

The database has a part in it too. `Crashed` is an error that the database raises and no service
catches: the character 0 in a column or a query parameter, text wider than its column, a touch or an
insert in a month without a partition. A column with a width cuts spaces that stick out instead
(`Fits`, `Cut`), and what is stored is what is left.

## Where the code differs from its documentation

The model follows the code. For each difference there is a condition that decides it, and for most an
example.

- Raw events are "kept until 6 months after they were last read or cited". A read or citation within
  the 30-day throttle writes no touch, so the window counts from an earlier month.
  `Retention.FullWindowAfterUseIff` says when the window is full, `Retention.RetentionThirtyDays`
  that at most two months are lost, `Retention.MarchReadIsShort` that both can be, and
  `Examples.MarchReadIsDropped` is a run in which an event read on 1 March is gone on 1 August.
- "A later write lands on the same fact as an earlier read" because keys are built from namespaces.
  A longer namespace can take the fact, and then the template it was built from is not frozen:
  `KeyStability.CreatedKeyIsStableIff`, `Examples.CreatedKeyChanges`.
- A template that names a slot twice accepts keys it can never build
  (`KeyTemplates.PrinterCoversParserIffDistinct`, `KeyTemplates.RepeatedSlotIsNotBuilt`).
- In a batch "each item stands alone". An item that fails in the database loses the whole batch; for
  items whose fields have their declared JSON types this is the only way:
  `BatchLaws.ItemsStandAloneIff` at each item's turn, `BatchLaws.BatchCompletesIff` before the call,
  `Examples.NulTitleLosesTheBatch`.
- Two neighbouring revisions can hold the same stored value, when a column cut what made the new one
  different: `FactProtocol.ReachableNeighboursDifferIff`, `Examples.SpaceRepeatsASnapshot`.
- The number `written` also counts items that were unchanged (`BatchLaws.WrittenCountsUnchanged`).
- `check_source_units` foretells an ingest except when the ledger cannot be searched for the unit,
  when the source hash is blank and the stored one was given, or when the unit has to be written and
  cannot be: `Ingest.CheckForetellsIngestIff`, `Examples.BlankHashMispredicts`,
  `Examples.WideHashMispredicts`.
- An unchanged ingest reports the id of the last event even when that event was dropped, and stores
  nothing (`LedgerRuns.UnchangedPayloadIsStoredIff`).
- The headline of an approval prompt can be stale (`Policies.PromptIsCurrentIff`,
  `Examples.HeadlineIsStale`); the priority of a policy is not part of the prompt.
- A write that only changes the kind of a fact is answered as unchanged (`Facts.SameValue` compares
  no kind).

## Model

| member | source | states |
|---|---|---|
| `FactProtocol.ConcurrentWritesAreSerial` | src/services/fact_service.py:176-246 | Over every interleaving of clients, with aborts at any time, the committed tables and all answers given are those of one serial run of the answered writes |
| `FactProtocol.ReachableHistoryOk` | src/services/fact_service.py:176-231 | In every reachable state a fact's revisions are exactly 1 to its number, the row equals the last snapshot, revision 1 alone is a create, and citations name stored revisions |
| `FactProtocol.ReachableNeighboursDifferIff` | src/services/fact_service.py:184-185 | In a reachable state neighbouring snapshots differ if and only if no accepted write stored the value that its fact already held; a write of which the columns keep everything never does |
| `FactProtocol.NoLostUpdate` | src/services/fact_service.py:102-109 | Every new revision k+1 was made by an accepted write with base k, and no two accepted writes of a fact had the same base |
| `FactProtocol.LogOnlyGrows` | src/services/fact_service.py:176-246 | The serial order respects real time: what has taken effect stays in front of everything that a later part of the run adds |
| `FactProtocol.RevisionsAreImmutable` | src/services/fact_service.py:218-231 | No step of any client alters or removes a committed revision |
| `FactProtocol.RevisionIndexNeverRefuses` | src/models/l3.py:100 | Behind the row lock the number that a writer inserts is always free, so the unique index never refuses it |
| `ProtocolRuns.UncontestedWrite` | src/services/fact_service.py:176-246 | In any state and whatever the other clients are doing, a write whose fact nobody else holds can run: begin, check, flush and record if it goes on, commit. It ends with exactly the committed rows and the one answer of the atomic write |
| `ProtocolRuns.CheckPossibleIff` | src/services/fact_service.py:102-108 | In every reachable state an idle client can check a write if and only if no other transaction holds the committed row and the source lookups do not fail; an absent row blocks nobody |
| `ProtocolRuns.FlushPossibleIff` | src/services/fact_service.py:191-216 | A checked row can be written if and only if its columns take it and, for a new fact, nobody has inserted the key, committed or not |
| `ProtocolRuns.RecordPossibleIff` | src/services/fact_service.py:218-245 | A revision can be written after its row if and only if the columns take its text and, unless an event id is unreadable, its citations |
| `ProtocolRuns.CheckTakesLock` | src/services/fact_service.py:102-108 | A write that found a row and was not refused owns its key from then on; a refused one owns nothing new |
| `ProtocolRuns.LockedRowIsStable` | src/services/fact_service.py:102-108 | What a client has locked stays as it saw it, whatever the others do until its next step |
| `ProtocolRuns.RefusedWriteIsUndone` | src/services/fact_service.py:270-274 | A write refused after its row was flushed leaves its transaction with the rows and the locks of before, whatever the others do between its steps |
| `SerialWrites.BasesIncrease` | src/services/fact_service.py:177-179 | Of two accepted writes of one fact the later has the later base, so writers with one base commit at most one revision |
| `SerialWrites.RevisionsComeFromWrites` | src/services/fact_service.py:211-231 | For each new revision, the accepted write of a serial run that made it, with its base and its text |
| `SerialWrites.SerialKeepsHistory` | src/services/fact_service.py:176-231 | A serial run keeps every history in order and alters no revision |
| `SerialWrites.NeighboursDifferIff` | src/services/fact_service.py:111-118 | Over a serial run neighbouring snapshots stay different if and only if no accepted write stores what its fact already holds |
| `Facts.WriteKeepsHistory` | src/services/fact_service.py:191-231 | An accepted write keeps every fact's history in order |
| `Facts.WriteKeepsNeighboursIff` | src/services/fact_service.py:184-231 | One write keeps neighbouring snapshots different if and only if its columns would not keep the value they already hold |
| `Facts.NextRevisionIsFree` | src/models/l3.py:100 | In an ordered history the next revision number is unused, and an absent fact has no revisions |
| `Facts.ResolveKey` | src/services/fact_service.py:121-134 | The key is given or built from a namespace and parts, with the refusal for each way the arguments can be wrong |
| `FactWrites.PrepareWrite` | src/services/fact_service.py:157-174 | The checks before the lock, in their order, give the refusal or the redacted write |
| `FactWrites.CiteSources` | src/services/fact_service.py:232-245 | The loop over sources appends one citation each and touches the cited events in order, up to the first bad id or failing touch |
| `FactWrites.FlushWrite` | src/services/fact_service.py:191-245 | The flushed row, snapshot and citations are exactly those of the write, or the failure that ends it |
| `FactWrites.WriteChecked` | src/services/fact_service.py:176-246 | Verdict on the locked row, then the rows of the write |
| `FactWrites.WriteFact` | src/services/fact_service.py:137-246 | The answer, and on success the new state of the session; after a refusal the session may hold flushed rows |
| `FactWrites.WriteItem` | src/services/fact_service.py:264-274 | The savepoint undoes a refused item completely, also one refused after rows were flushed |
| `FactWrites.WriteFacts` | src/services/fact_service.py:256-276 | A batch is the fold of single writes with refused items left out; `written` is the number of items without an error; limits on the number of items |
| `WriteAnswers.KeyIff` | src/services/fact_service.py:121-134 | A request is for a key if and only if it names that key alone, or a stored namespace alone that builds it; an empty argument counts as absent |
| `WriteAnswers.FieldsAnswer` | src/services/fact_service.py:160-174 | An unknown change, a blank text, a summary or content that is too long after redaction, or a source that is no object is refused before anything is compared |
| `WriteAnswers.ConflictIff` | src/services/fact_service.py:177-179 | A write conflicts if and only if its base is not the stored revision, 0 for no fact; the answer shows the stored revision and fact field by field |
| `WriteAnswers.UnchangedIff` | src/services/fact_service.py:111-118 | A write is unchanged if and only if its base is the stored revision, it is no create, and its redacted title, summary, content, status and attributes each equal the stored ones, empty attributes as none; nothing changes then |
| `WriteAnswers.WroteIff` | src/services/fact_service.py:176-245 | A write makes a revision if and only if its fields pass, it is on top of what is stored and not what is stored, its sources, event ids and kind are known, every column takes its text and every due touch finds its partition |
| `WriteAnswers.NotFoundIff` | src/services/fact_service.py:187-189 | A source is reported as not found if and only if the write would go on and the first missing source is one that the database can look up |
| `WriteAnswers.WroteStores` | src/services/fact_service.py:191-246 | After a new revision: the row with the content in full and the other fields as their columns keep them, the next number, kind, times and namespace; the snapshot; one citation per source with its link, event and hash; the touches; nothing else; and the answer field by field |
| `WriteAnswers.AnsweredContentIsStored` | src/services/fact_service.py:184-215 | After every answer that is no error the stored fact has the request's content in full, at the base revision or the next |
| `WriteAnswers.TouchesAre` | src/services/fact_service.py:232-244 | The cited events whose touch is due are touched, and nothing else happens to any event |
| `WriteAnswers.ItemsAreCalls` | src/services/fact_service.py:264-274 | Each item of a completed batch is answered, and changes the store, as a call of its own after the items before it |
| `WriteAnswers.WrittenIsCounted` | src/services/fact_service.py:275-276 | The reported number is the number of answers that are no errors |
| `BatchLaws.AtomicWriteIsSerialStep` | src/services/fact_service.py:176-246 | A write that the database does not fail is one step of a serial run, in its answer and in its rows |
| `BatchLaws.BatchIsSerial` | src/services/fact_service.py:256-276 | A batch that completes is a serial run of its items; the number of revisions grows by the written answers exactly |
| `BatchLaws.WrittenCountsUnchanged` | src/services/fact_service.py:275-276 | The reported number is the written plus the unchanged items |
| `BatchLaws.JobCrashesIff` | src/services/fact_service.py:191-245 | An item fails in the database if and only if a query parameter has the character 0, or it passes the checks and a text does not fit its column or a due touch has no partition, in the order of the code |
| `BatchLaws.FatalIff` | src/services/fact_service.py:158-159 | An item fails before its row is locked if and only if it names a key or namespace with the character 0 |
| `BatchLaws.LookupFailsIff` | src/services/fact_service.py:187-189 | The source lookups fail in the database if and only if a key with the character 0 comes before every unknown one |
| `BatchLaws.ItemsStandAloneIff` | src/services/fact_service.py:257-274 | A batch completes if and only if no item fails in the database at its turn; otherwise all of it is lost |
| `BatchLaws.BatchCompletesIff` | src/services/fact_service.py:257-274 | For items of different facts, the same read off the store before the call |
| `Retention.RetentionGuarantee` | src/services/raw_service.py:26-45 | An event read at its first page, or cited by a committed revision, at time r outlives every run whose drops stay within the window after the month of r less the throttle |
| `Retention.RetentionThirtyDays` | src/services/partition_service.py:91-101 | With the thirty-day throttle it lives at least the window less two months after the month of r |
| `Retention.FullWindowAfterUseIff` | README.md:12-13 | A first-page read or a committed citation is followed by a full window if and only if it wrote its touch or the last touch was in its month |
| `Retention.MarchReadIsShort` | src/services/raw_service.py:33-45 | The two-month bound is met: touched on 30 January, read on 1 March outside a leap year, gone when the window after January is over |
| `Retention.KeptThroughIff` | src/services/partition_service.py:81-101 | Untouched, an event stays through month m if and only if m is within the window after the month of its last touch |
| `Retention.RunSpares` | src/services/partition_service.py:91-101 | An event lives through any run of operations whose drops all spare the month of its last touch, and touches only move forward |
| `Retention.StoredIffNeverTaken` | src/services/partition_service.py:91-101 | After any run an event is stored if and only if no completed drop run found its last touch before the window |
| `Retention.OnlyDropsRemove` | src/services/raw_service.py:60-88 | Every step other than a drop run keeps all events, their payloads and all partitions |
| `Retention.PayloadNeverChanges` | src/services/raw_service.py:71-88 | Nothing alters a stored payload, and a dropped event never comes back |
| `Retention.CitationRenews` | src/services/fact_service.py:232-244 | After a committed revision, alone or in a batch, the touch of each event it cites is the old one, or that moment when it was due |
| `Retention.ReadRenews` | src/services/raw_service.py:166-171 | After a first-page read the touch is the old one, or that moment when it was due |
| `Retention.WritesFindTheirPartition` | src/services/partition_service.py:55-62 | After maintenance in month m every touch in m and m+1, and every insert of text that fits, finds its partition, whatever happens between, if windows are not negative and no drop run is of a later month |
| `Retention.CitedEventAnswers` | src/services/raw_service.py:118-181 | Once an event is cited with a link, every later read gives a page of the payload or a non-empty list headed by the newest cited link; one exception, a due touch in a month without a partition |
| `Paging.PagesReconstruct` | src/services/raw_service.py:166-181 | Following `next_offset` with any page sizes and any operations between the calls is lost if and only if some call finds no event, or no partition for its due touch; otherwise it gives the payload from the offset on, at least one character per call |
| `Paging.PagingTerminates` | src/services/raw_service.py:172-181 | As many calls as the payload has characters, and one more, complete it or are lost |
| `Paging.SparedNeverFails` | src/services/raw_service.py:157-171 | No call fails while all drops spare the month of a touch and the first call has a partition |
| `Paging.LoggedTextIsReadBack` | src/services/raw_service.py:91-181 | A reader who pages through a logged event gets exactly the logged text, stripped and redacted, whatever runs before and between the calls, unless a call fails |
| `Paging.IngestedTextIsReadBack` | src/services/ingest_service.py:100-109 | The same for a created or changed ingest and its canonical text |
| `Partitions.MonthsAgo` | src/services/partition_service.py:29-34 | The loop ends and subtracts on the month index; it fails exactly for results that are no date |
| `Partitions.NameRoundTrip` | src/services/partition_service.py:37-39 | A name is read back as its year and month for four-digit years, and matches nothing for shorter ones |
| `Partitions.PartitionCoversItsMonth` | src/services/partition_service.py:42-52 | The DDL exists exactly for years 1000 to the next-to-last month of 9999, its range holds exactly the instants of the month, and its name tells the month |
| `Partitions.EnsurePartitions` | src/services/partition_service.py:55-62 | Adds the partitions of this month and the next and answers their names, or fails at the ends of the calendar |
| `Partitions.Expired` | src/services/partition_service.py:81-88 | Exactly the listed names whose month is before the month of now less the window, in order; fails exactly for names or windows that are no date |
| `Partitions.NamesBeforeAre` | src/services/partition_service.py:84-88 | A name is expired if and only if it is listed, matches the pattern and its month is before the cutoff |
| `Partitions.ListPartitions` | src/services/partition_service.py:65-78 | The listing names every partition and nothing else |
| `Partitions.DropTables` | src/services/partition_service.py:98-100 | Dropping the named partitions removes exactly their months and the rows in them |
| `Partitions.DropIdlePartitions` | src/services/partition_service.py:91-101 | A drop run removes exactly the partitions before the window with their rows, and answers exactly their names |
| `Partitions.DropIsExact` | src/services/partition_service.py:91-101 | A row survives a drop run if and only if the month of its last touch is within the window, and is unchanged then |
| `Calendar.MonthsTile` | src/services/partition_service.py:19-26 | Month ranges are disjoint and cover the time line: an instant is in the range of its own month only |
| `Calendar.MomentRoundTrip` | src/services/partition_service.py:57-59 | The date fields of an instant determine it and lie in its month |
| `Calendar.TicksRoundTrip` | src/services/partition_service.py:19-20 | The instant of any valid date has those fields |
| `Calendar.MonthStartIsGregorian` | src/services/partition_service.py:19-26 | The first day of a month in closed form: 365 days a year, one more for each leap year before, and the table of month lengths; 1970 starts at day 719528 |
| `Calendar.ThirtyDaysBack` | src/services/raw_service.py:40-43 | Thirty days back is never more than two calendar months back |
| `Calendar.TwoMonthsBackIsMarch` | src/services/raw_service.py:40-43 | It is two months back if and only if the date is 1 March, or 2 March outside leap years |
| `RawEvents.TouchRawEvent` | src/services/raw_service.py:26-45 | Writes the touch exactly when the last one is older than the throttle, reports whether it did, fails when the month has no partition |
| `RawEvents.GetRawContext` | src/services/raw_service.py:137-181 | A page of the payload with its next offset, touching on the first page only, or the links when the event is gone |
| `RawEvents.NewestLinkFirst` | src/services/raw_service.py:121-134 | Whatever order ties come in, the link list is empty exactly when no revision cites the event with a link, and its head is the newest citation |
| `RawEvents.DistinctShape` | src/services/raw_service.py:134 | Removing repeats keeps the head and exactly the links of the rows |
| `RawEvents.DistinctKeepsFirsts` | src/services/raw_service.py:134 | No link is kept twice, and the links keep the order of their first occurrences |
| `RawEvents.PageIs` | src/services/raw_service.py:166-181 | A page is the payload from its offset, at most the asked number of characters and the limit, full unless the payload ends, with the next offset exactly when there is more |
| `RawEvents.ReadIs` | src/services/raw_service.py:137-181 | A read gives the page, and touches the event only at the first page and when the last touch is older than the throttle, which fails without a partition; a dropped event gives the links; nothing else changes |
| `RawEvents.LogIs` | src/services/raw_service.py:91-115 | An event is logged if and only if its source is active, its texts are no blanks, its length, month and columns allow it; then the stored event field by field, and nothing else changes |
| `KeyStability.KeysMatchTheirTemplates` | src/services/namespace_service.py:167-176 | In every reachable state each fact's key matches the current template of the namespace it is stored under |
| `KeyStability.LaterWriteFindsTheFact` | README.md:22-23 | Once a fact is stored under the namespace it was built from, every later request with that namespace and those parts is for that fact |
| `KeyStability.StableIffInUse` | src/services/namespace_service.py:167-176 | A namespace builds the same key from the same parts in every later state if and only if some fact is stored under it |
| `KeyStability.CreatedUnderOwner` | src/services/fact_service.py:197-208 | A created fact is stored under the longest namespace that accepts its key, which need not be the one it was built from |
| `KeyStability.CreatedKeyIsStableIff` | src/services/fact_service.py:158-159 | After a create from a namespace and parts, these give the same key for good if and only if that namespace owns the key or held a fact before |
| `KeyStability.LongerNamespaceTakesTheKey` | src/services/namespace_service.py:234-246 | Two namespaces for which the longer takes the key that the shorter builds |
| `Namespaces.ResolveIsLongest` | src/services/namespace_service.py:234-246 | The winner is the one strictly longest namespace whose template accepts the key, and there is none exactly when no template accepts it |
| `Namespaces.QueryAnswerIsUnique` | src/services/namespace_service.py:237-243 | The candidate query has exactly one answer: namespaces that prefix one key never tie in length |
| `Namespaces.LikeIsPrefix` | src/services/namespace_service.py:240 | For a stored namespace the LIKE pattern is exactly the dotted-prefix test |
| `Namespaces.ValidateFactKey` | src/services/namespace_service.py:234-256 | The first accepting candidate of the sorted list, or the refusal |
| `Namespaces.BuiltKeyResolves` | src/services/fact_service.py:129-159 | A key built from a stored namespace is never refused and its owner is at least as long |
| `Namespaces.ValidateKeyIs` | src/services/namespace_service.py:234-256 | A key has an owner if and only if it is the longest namespace accepting it; a blank key, one that nobody accepts and one that no query takes each have their own error |
| `Namespaces.UpsertNamespace` | src/services/namespace_service.py:141-182 | The checks in order and the new row, or a database error for text that does not fit; a refused summary leaves the session changed for the caller to roll back |
| `Namespaces.UpsertKeeps` | src/services/namespace_service.py:167-178 | Upserts keep all names and templates valid, remove none, and never change a template that facts use |
| `Namespaces.UpsertIs` | src/services/namespace_service.py:141-182 | A namespace is stored if and only if its name, template, kind and summary pass, no fact uses another template, and the columns take it; the row field by field, nothing else |
| `Namespaces.UpsertRefusals` | src/services/namespace_service.py:141-177 | The refusals in the order of the code |
| `KeyTemplates.ParseTemplate` | src/services/namespace_service.py:61-82 | The segments of a template, or the reason it is refused |
| `KeyTemplates.BuildKey` | src/services/namespace_service.py:89-105 | The key, or the list of missing parts; the names never run out |
| `KeyTemplates.KeyMatches` | src/services/namespace_service.py:108-121 | True exactly for keys under the namespace that fit the template segment by segment |
| `KeyTemplates.SlotNamesAreTheSlots` | src/services/namespace_service.py:85-86 | The scan for names over the raw text finds exactly one name per open slot, in order |
| `KeyTemplates.BuiltKeyMatches` | src/services/namespace_service.py:89-121 | Every built key is accepted by its own template |
| `KeyTemplates.AcceptedKeyIsBuilt` | src/services/namespace_service.py:89-121 | With distinct slot names every accepted key is built, from parts that are read off the key |
| `KeyTemplates.PrinterCoversParserIffDistinct` | src/services/namespace_service.py:85-105 | Every accepted key can be built if and only if the slot names are distinct |
| `KeyTemplates.RepeatedSlotIsNotBuilt` | src/services/namespace_service.py:85-105 | A template that names a slot twice accepts a key that no parts build |
| `KeyTemplates.SameKeyIffSameSlugs` | src/services/namespace_service.py:94-105 | Two part maps give the same key if and only if their slugs agree on every slot |
| `KeyTemplates.BuiltKeyIs` | src/services/namespace_service.py:89-105 | A key is built if and only if the template is one and each slot's part has a word; then its segments are the literals and the lower-cased words of the parts joined by dashes |
| `KeyTemplates.RefusedKeyTells` | src/services/namespace_service.py:89-105 | The refusal names exactly the slots whose part has no letter or digit, in their order |
| `KeyTemplates.SameKeyIffSameWords` | src/services/namespace_service.py:94-105 | Two part maps give the same key if and only if each slot's parts have the same words, letter case aside |
| `KeyTemplates.TemplateIff` | src/services/namespace_service.py:61-82 | A text is a template of a namespace if and only if it is the namespace and dotted segments, each a slot or a literal, at least one a slot |
| `Patterns.SegmentPattern` | src/services/namespace_service.py:29 | The test for a key segment accepts exactly the language of the regular expression |
| `Patterns.SlotPattern` | src/services/namespace_service.py:30 | The test for a slot accepts exactly the language of the regular expression |
| `Patterns.PartitionPattern` | src/services/partition_service.py:16 | A name is read as a partition exactly when the regular expression matches it |
| `Slugs.SlugIsSegment` | src/services/namespace_service.py:44-49 | A slug is empty or a valid key segment, and the last collapse step changes nothing |
| `Slugs.SlugOfSegment` | src/services/namespace_service.py:29-49 | A valid segment is its own slug |
| `Slugs.SlugIdempotent` | src/services/namespace_service.py:44-49 | Slugging a slug changes nothing |
| `Slugs.TextOfWords` | src/services/namespace_service.py:48 | Every text is its words, the maximal runs of letters and digits, with gaps that hold none |
| `Slugs.SlugIsWords` | src/services/namespace_service.py:44-49 | A slug is the words of the folded text, lower-cased and joined by dashes, and empty if and only if there are none |
| `Slugs.SameSlugIffSameWords` | src/services/namespace_service.py:44-49 | Two values have the same slug if and only if they have the same words, letter case aside |
| `Slugs.AsciiSlug` | src/services/namespace_service.py:44-49 | For ASCII text these are the words of the text itself |
| `Hashing.CanonicalIdempotent` | src/services/hashing.py:17-21 | Canonical text is canonical |
| `Hashing.CanonicalIgnoresLineEndings` | src/services/hashing.py:17-21 | Texts with the same lines have the same canonical form, whichever of CRLF, CR and LF ends each line |
| `Hashing.CanonicalIgnoresTrailingBlanks` | src/services/hashing.py:20 | Texts whose lines differ only in trailing blanks have the same canonical form, whatever ends each line |
| `Hashing.CanonicalOfLines` | src/services/hashing.py:17-21 | The canonical form of lines with any endings is the stripped lines joined by LF |
| `Hashing.EveryTextIsLines` | src/services/hashing.py:19-20 | Every text is such lines, so the three before it hold of all texts |
| `Hashing.CanonicalIgnoresEnds` | src/services/hashing.py:21 | Blanks around the text are ignored |
| `Hashing.CanonicalOfStrip` | src/services/ingest_service.py:85 | Stripping before, as only the ingest does, makes no difference |
| `Hashing.SameKeyIffSameWords` | src/services/hashing.py:24-32 | Two external ids have the same item key if and only if they have the same words: spacing never forks a key |
| `Ingest.IngestUnit` | src/services/ingest_service.py:93-135 | The answer, the event and the ledger row field by field: first-seen time and external id kept, metadata kept when none is given; a failing ledger row leaves the event for the rollback |
| `UnitIdentity.SameUnitIff` | src/services/ingest_service.py:44-48 | Two ingests from one source are for the same unit if and only if their streams agree, none as empty, and either both have ids of the same words, or neither has one and the content hashes agree |
| `UnitIdentity.IngestAnswerIff` | src/services/ingest_service.py:84-98 | Created if and only if the unit has no row, changed if and only if it has one and a hash differs, unchanged otherwise |
| `UnitIdentity.IngestWrites` | src/services/ingest_service.py:93-129 | An accepted ingest writes the row of its unit and no other, field by field, and a new event exactly when it is not unchanged |
| `UnitIdentity.IngestOutcomeIs` | src/services/ingest_service.py:84-129 | An ingest is refused, fails in the database or is accepted exactly under the stated conditions on its arguments and the store |
| `UnitIdentity.OneRowIff` | src/services/ingest_service.py:88-93 | Two accepted ingests write the same row if and only if the column keeps the same of their streams and their ids have the same words, or without ids their hashes agree |
| `UnitIdentity.IngestedAgain` | src/services/ingest_service.py:93-122 | Over any run without a reset of the source, a unit that was ingested is never created again: it is changed if and only if a hash differs from the stored one, on the same row |
| `Ingest.CheckSourceUnits` | src/services/ingest_service.py:138-201 | One status per candidate, at most the limit, each by the lookup its fields allow; one failing lookup fails the call |
| `UnitIdentity.StatusByItem` | src/services/ingest_service.py:161-199 | A candidate with an id or content hash is looked up by it: unknown without a row, known when it tells no hash, changed if and only if a hash it tells differs |
| `UnitIdentity.StatusByHash` | src/services/ingest_service.py:169-192 | A candidate with only a source hash is unchanged if and only if some row of its stream has that hash, and else unknown; one that tells nothing is an error |
| `Ingest.CheckForetellsIngestIff` | src/services/ingest_service.py:162-199 | For the same unit the status foretells the ingest if and only if the ledger can be searched for it, a source hash was given or did not matter, and the unit could be stored if it had to be |
| `Ingest.ResetSourceIngest` | src/services/ingest_service.py:299-317 | Without confirmation a preview that tells whether the source has units; with it, exactly the ledger rows of the source go, with their number |
| `Ingest.IngestKeepsLedger` | src/services/ingest_service.py:93-127 | An accepted ingest keeps the ledger equal to the reading of its log with one more entry |
| `Ingest.ResetKeepsLedger` | src/services/ingest_service.py:313-314 | A reset keeps the ledger equal to the reading of its log |
| `LedgerRuns.LedgerIsTheLog` | src/services/ingest_service.py:84-127 | After any run each row is what the unit's log since the last reset gives: last hashes and metadata, last event written, fixed first-seen time; rows exactly for logged units; events written exactly on changes |
| `LedgerRuns.LedgerFromNothing` | src/services/ingest_service.py:84-127 | From an empty store the ledger is the reading of the run's own log |
| `LedgerRuns.EventsAreCounted` | src/services/ingest_service.py:94-109 | A run writes exactly one event per created or changed ingest and per logged event |
| `LedgerRuns.EventsAreConserved` | src/services/raw_service.py:60-88 | Between drop runs the stored events are the old ones and exactly those |
| `LedgerRuns.LedgerPointsAtPayloads` | src/services/ingest_service.py:123-127 | In every reachable state a row's event, while stored, is the payload of the row's hashes from the row's source |
| `LedgerRuns.HashRowsKeepTheirHash` | src/services/hashing.py:24-32 | A row keyed by content keeps that content hash for good |
| `LedgerRuns.UnchangedPayloadIsStoredIff` | src/services/ingest_service.py:94-98 | The event that an unchanged ingest reports is stored if and only if no drop run since then found its last touch before the window |
| `Policies.PolicyChangesAreApproved` | src/mcp_server.py:97-154 | However other writes land between plan, answer and apply, every policy that an MCP call adds, alters or demotes was accepted for a prompt with exactly the saved key and content, and the title of which the saved one is the stored form |
| `Policies.UnapprovedPlanChangesNoPolicy` | src/services/l1_service.py:279-280 | A call planned without approval never changes a policy, even one that became a policy after the plan |
| `Policies.PoliciesCarryApproval` | src/models/l1.py:67-69 | Every stored policy has its approval, so the check constraint never fires |
| `Policies.PromptIsCurrentIff` | src/services/l1_service.py:190-202 | Over any run from plan to apply, the accepted prompt is the one a plan at the apply would ask with, if and only if the note is saved as no policy, or was a policy at both times or at neither |
| `NoteCalls.ApplySavesIff` | src/mcp_server.py:97-154 | Over any run from plan to apply, the call saves if and only if its fields pass and fit, the note is not stored already, and a change that binds, at the plan or at the apply, was accepted by the first answer to its question; the saved note and record field by field, and nothing else changes otherwise |
| `NoteCalls.AskedIff` | src/mcp_server.py:112-125 | The user is asked if and only if the fields pass, a policy would be made, altered or ended, and the client can ask |
| `NoteCalls.QuestionIs` | src/services/l1_service.py:190-202 | The prompt word for word: what the plan would add, change or end, the project, and the key, title and content to be saved |
| `NoteCalls.SaveIs` | src/services/l1_service.py:258-294 | One save: its answer in the order of the checks, and the note it leaves, a policy with its approval and a plain note with none |
| `NoteCalls.RestIs` | src/routers/l1.py:58-67 | A save over REST goes through if and only if its fields pass and fit and the note is not stored already; a delete removes exactly the note |
| `Policies.NoteSession.UpsertNote` | src/services/l1_service.py:258-294 | Unchanged, refused without approval, failed on text that does not fit, or saved with the approval of a policy and none for a plain note |
| `Policies.NoteSession.DeleteNote` | src/services/l1_service.py:330-340 | Removes exactly the note, and tells whether there was one |
| `Service.RunWrite` | src/mcp_server.py:51-59 | Commit on success, roll back on an error: what is committed is the write, or nothing |
| `Service.RunBatch` | src/mcp_server.py:51-59 | The same around a batch, with the answer of the batch |
| `Service.RunKeepsStore` | src/services/fact_service.py:197-214 | Every run of all operations keeps names, histories, key owners, partitions and ledger keys in order, and facts, revisions and citations only grow |
| `Service.PreparedIsAccepted` | src/services/fact_service.py:158-159 | A write that passes its checks is for a key that its owner's template accepts |
| `Examples.NulTitleLosesTheBatch` | src/services/fact_service.py:264-274 | An accepted item is lost with one whose title has the character 0 |
| `Examples.SpaceRepeatsASnapshot` | src/models/l3.py:29 | A status with one space too many passes the comparison twice and stores the same value twice |
| `Examples.CreatedKeyChanges` | src/services/namespace_service.py:167-176 | A fact is created from a namespace whose template can still change, and then its parts build another key |
| `Examples.BlankHashMispredicts` | src/services/ingest_service.py:87-94 | A unit known with a source hash is checked as unchanged without one, and the ingest does not agree |
| `Examples.WideHashMispredicts` | src/models/l4.py:33 | A source hash of 65 characters is checked as unknown, and the ingest fails in the database |
| `Examples.MarchReadIsDropped` | README.md:12-13 | From an empty store: logged on 30 January, read on 1 March, dropped on 1 August |
| `Examples.HeadlineIsStale` | src/services/l1_service.py:190-202 | Plan, a save over REST, the answer, apply: the accepted prompt is not the current one |

## Smaller members

These are read off one definition, or equal a specification function that is written like their body.

- `FactProtocol.CreateRaceLoserAborts` (src/models/l3.py:57-59): a writer that saw a key as absent, and finds it committed by another, can only abort, which changes nothing.
- `FactProtocol.OnlyCommitsChange` (src/mcp_server.py:51-59): no step but a commit changes the committed tables: refused, unchanged and aborted writes leave them alone.
- `FactProtocol.CommitIsSerial` (src/services/fact_service.py:256-276): a commit takes the committed tables forward by the transaction's own writes, in order.
- `Facts.ConflictTellsTheBase` (src/services/fact_service.py:51-63): a conflict hands out the stored revision and value, and that revision is the only base that does not conflict.
- `Facts.WriteTwiceIsOnceIff` (src/services/fact_service.py:111-118): writing a value again on its own revision is answered as unchanged if and only if the columns kept all of it, whatever kind is asked for.
- `Hashing.KeyKinds` (src/services/hashing.py:24-32): the prefix of an item key tells whether it came from an external id or from the content.
- `RawEvents.AddRawEvent` (src/services/raw_service.py:60-88): stores the redacted payload in the current month under a fresh id, or refuses an oversized one, or fails on text that does not fit.
- `RawEvents.LogRawEvent` (src/services/raw_service.py:91-115): source, text and type checks in order, then one new event whose hash is given or that of the text before redaction.
- `Ingest.IngestSourceUnit` (src/services/ingest_service.py:70-135): created, changed or unchanged by the stored hashes, with the event and ledger row each case writes.
- `LedgerRuns.IngestedPayloadIsStoredIff` (src/services/ingest_service.py:94-98): the event that an ingest reports is stored if and only if the unit was new or changed, or its last event was not dropped.
- `ProtocolRuns.OtherStepsPossibleIff` and `ProtocolRuns.EndReleases` (src/mcp_server.py:51-59): when a transaction can begin, commit and abort, and what it leaves.
- `WriteAnswers.NoKeyAnswers` and `WriteAnswers.ErrorChangesNothing` (src/services/fact_service.py:157-159): a request without a key, or with a key that no namespace owns, is answered with that; no error changes the store.
- `UnitIdentity.CrawlSourceIff` (src/services/ingest_service.py:51-56): the call is for an active source other than the built-in one.
- `UnitIdentity.ResetRemoves` (src/services/ingest_service.py:313-314): a confirmed reset removes exactly the rows of its source.
- `NoteCalls.AnswerIsFirstReply` (src/mcp_server.py:97-154): a call keeps the first answer to its question.
- `Slugs.StrokedDIsD` (src/services/namespace_service.py:46): a stroked d counts as a plain one.
- `Partitions.DropRemovesPartitions` (src/services/partition_service.py:91-101): a drop run removes exactly the partitions before the window, and nothing but them and their rows.
- `Service.PutSourceIs` (src/services/l1_service.py:359-396): a source is found from then on exactly when it was put as active.
- `Service.BatchSizeIs` (src/services/fact_service.py:249-276): a batch has 1 to 10 items and one answer for each.
- `Database.ParseKindIff` and `Database.ParseChangeIff` (src/models/enums.py:17-34): kinds and changes are read from their own names only.
- `FactWrites.CallIsJob` (src/services/fact_service.py:271-274): a single call and a batch item of the same arguments have the same outcome and effect.

## Left out

- Rows of other projects, the creation of projects, the project path as text, and the built-in source's row: the model is one project.
- Event ids are a counter, so fresh ids are never given out twice; the original draws random UUIDs.
- Races inside namespace, note and ingest transactions, which take no row locks: each is one atomic step. A template change that overtakes a concurrent fact write is therefore not modelled.
- Deadlock, and how long a client waits for a lock: a blocked step is one that is not possible (`ProtocolRuns.CheckPossibleIff`, `ProtocolRuns.FlushPossibleIff`), and an abort is possible at any step.
- Arguments of another JSON type than declared, such as a number for a namespace: a batch item with one can raise an error that the batch does not catch either. Attributes and metadata are maps of strings.
- The session's object cache: a row read again in one transaction is what the table holds, so it is already cut to its columns.
- Database errors other than those of text, partitions and unique indexes: lost connections, the size limit of index entries, counters beyond 32 bits, the keywords of namespaces and the other fields of sources. Semantic search is off, so a write makes no call for an embedding.
- Ingest.ResetSourceIngest: does not model the watermark rows that a reset deletes with the units.
- Policies.NoteSession.DeleteNote: does not model the database error for a key with the character 0, which finds no note.
- `$` before a trailing newline and `\d` beyond ASCII digits in the patterns; lower-casing beyond ASCII letters.
- The content in a fact view is cut at 1500 characters as in the original; the other cut texts, the page's other fields and the messages of errors are not modelled.
- The kinds of questions an MCP client supports and the second call of an input-required round trip: a client can ask or cannot, and the plan is made once per call.
- `get_source_unit`, watermarks, the fields of a source other than whether it is active, links between facts, the global directory, overviews, keywords: easy members.
- Search, embeddings, SQL queries over raw events, redaction patterns, routers, settings, authentication: meaning that rests on libraries or on the database.
