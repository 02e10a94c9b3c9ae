/** The rows of one project, and the session through which the services change them. */
module Database {
  import opened Wrappers
  import opened Text

  datatype Kind = Fact | Decision | Plan | Question | Issue | Solution | Rule | Task | WatchedRef

  datatype Change = Create | Replace | Merge | Close | Reopen

  function ParseKind(s: string): Option<Kind> {
    if s == "fact" then Some(Fact)
    else if s == "decision" then Some(Decision)
    else if s == "plan" then Some(Plan)
    else if s == "question" then Some(Question)
    else if s == "issue" then Some(Issue)
    else if s == "solution" then Some(Solution)
    else if s == "rule" then Some(Rule)
    else if s == "task" then Some(Task)
    else if s == "watched_ref" then Some(WatchedRef)
    else None
  }

  function ParseChange(s: string): Option<Change> {
    if s == "create" then Some(Create)
    else if s == "replace" then Some(Replace)
    else if s == "merge" then Some(Merge)
    else if s == "close" then Some(Close)
    else if s == "reopen" then Some(Reopen)
    else None
  }

  function KindName(k: Kind): string {
    match k
    case Fact => "fact"
    case Decision => "decision"
    case Plan => "plan"
    case Question => "question"
    case Issue => "issue"
    case Solution => "solution"
    case Rule => "rule"
    case Task => "task"
    case WatchedRef => "watched_ref"
  }

  function ChangeName(c: Change): string {
    match c
    case Create => "create"
    case Replace => "replace"
    case Merge => "merge"
    case Close => "close"
    case Reopen => "reopen"
  }

  /** A kind is read from its own name and from nothing else. */
  lemma ParseKindIff(s: string, k: Kind)
    ensures ParseKind(s) == Some(k) <==> s == KindName(k)
  {
    var names := [KindName(Fact), KindName(Decision), KindName(Plan), KindName(Question), KindName(Issue), KindName(Solution),
                  KindName(Rule), KindName(Task), KindName(WatchedRef)];
    assert forall i, j :: 0 <= i < j < |names| ==> |names[i]| != |names[j]| || names[i][0] != names[j][0];
  }

  lemma ParseChangeIff(s: string, c: Change)
    ensures ParseChange(s) == Some(c) <==> s == ChangeName(c)
  {
    var names := [ChangeName(Create), ChangeName(Replace), ChangeName(Merge), ChangeName(Close), ChangeName(Reopen)];
    assert names[0][2] == 'e' && names[0][0] == 'c' && names[1][2] == 'p' && names[2][0] == 'm' && names[3][1] == 'l' && names[4][2] == 'o';
  }

  type EventId = nat
  type Attrs = map<string, string>

  // ---- what the database takes ------------------------------------------------------

  const NUL: char := '\0'

  /** Text of a column without a width, or of a query parameter: anything but the character 0. */
  predicate Storable(s: string) {
    NUL !in s
  }

  /** Text of a column with a width. Longer text fits when only spaces stick out. */
  predicate Fits(s: string, width: nat) {
    Storable(s) && forall i :: width <= i < |s| ==> s[i] == ' '
  }

  /** What such a column keeps. */
  function Cut(s: string, width: nat): (r: string)
    ensures r <= s && |r| == if |s| <= width then |s| else width
  {
    if |s| <= width then s else s[..width]
  }

  predicate StorableAttrs(a: Attrs) {
    forall k :: k in a ==> Storable(k) && Storable(a[k])
  }

  function Spaces(n: nat): (r: string)
    ensures |r| == n && forall i :: 0 <= i < n ==> r[i] == ' '
  {
    seq(n, i => ' ')
  }

  /** A text fits when it is what the column keeps and then spaces. */
  lemma FitsIff(s: string, width: nat)
    ensures Fits(s, width) <==> Storable(s) && exists n: nat :: s == Cut(s, width) + Spaces(n)
  {
    if Fits(s, width) { assert s == Cut(s, width) + Spaces(|s| - |Cut(s, width)|); }
  }

  /** Nothing of a trimmed text that fits is cut. */
  lemma TrimmedIsNotCut(s: string, width: nat)
    requires Trimmed(s) && Fits(s, width)
    ensures |s| <= width && Cut(s, width) == s
  {
  }

  /** A hex digest. */
  predicate IsHex64(s: string) {
    |s| == 64 && forall i :: 0 <= i < |s| ==> '0' <= s[i] <= '9' || 'a' <= s[i] <= 'f'
  }

  type Hex64 = s: string | IsHex64(s)
    witness seq(64, i => '0')

  lemma HexIsStorable(s: Hex64)
    ensures s != "" && Fits(s, 64) && Trimmed(s)
  {
  }

  // ---- rows -------------------------------------------------------------------------

  datatype Namespace = Namespace(template: string, defaultKind: Kind, summary: string)

  /** The part of a fact that a revision snapshots. */
  datatype Value = Value(title: string, summary: string, content: string, status: Option<string>, attrs: Option<Attrs>)

  datatype FactRow = FactRow(namespace: string, kind: Kind, revision: nat, value: Value, createdAt: nat, updatedAt: nat)

  datatype RevisionId = RevisionId(key: string, number: nat)

  datatype Revision = Revision(change: Change, reason: string, value: Value, changedAt: nat)

  datatype Citation = Citation(revision: RevisionId, sourceKey: string, url: Option<string>,
                               event: Option<EventId>, sourceHash: Option<string>)

  /** Facts by key, revisions by (fact, number), and the sources of the revisions. The two maps
      are the two unique indexes. */
  datatype Tables = Tables(facts: map<string, FactRow>, revisions: map<RevisionId, Revision>, citations: seq<Citation>)

  datatype RawEvent = RawEvent(eventType: string, content: string, sourceHash: string, url: Option<string>,
                               sourceKey: string, createdAt: nat, touchedAt: nat)

  datatype UnitId = UnitId(source: string, stream: string, item: string)

  datatype UnitRow = UnitRow(externalId: Option<string>, contentHash: string, sourceHash: string, lastEvent: EventId,
                             metadata: Option<Attrs>, firstSeen: nat, lastSeen: nat)

  /** `partitions` holds the months that have a partition, `sources` says which sources are active,
      and `nextEvent` numbers the events: a fresh UUID is a number not yet given out. */
  datatype Store = Store(namespaces: map<string, Namespace>, tables: Tables, events: map<EventId, RawEvent>,
                         nextEvent: EventId, partitions: set<nat>, sources: map<string, bool>,
                         ledger: map<UnitId, UnitRow>)

  // ---- settings and the functions this model does not look into ----------------------

  datatype Config = Config(redactKnown: string -> string, redactSecrets: string -> string, redactAttrs: Attrs -> Attrs,
                           redactMetadata: Attrs -> Attrs,
                           digest: string -> Hex64, fold: string -> string, parseUuid: string -> Option<EventId>,
                           maxTextChars: nat, maxRawChars: nat, rawPageChars: nat, maxRawPageChars: nat,
                           defaultLimit: nat, touchMinDays: nat, retentionMonths: int)

  // ---- outcomes ---------------------------------------------------------------------

  datatype FactView = FactView(key: string, namespace: string, kind: Kind, revision: nat, status: Option<string>,
                               title: string, summary: string, content: string, attrs: Option<Attrs>)

  /** The errors a tool answers with. */
  datatype Refusal = Conflict(current: nat, fact: Option<FactView>) | KeyRule | NotFound | Invalid

  /** `Crashed` is a database error: no service catches it, and the transaction is lost. */
  datatype Outcome<+T> = Done(value: T) | Refused(error: Refusal) | Crashed

  /** `require_text` */
  function RequireText(s: string): Result<string, Refusal> {
    if Strip(s) == "" then Err(Invalid) else Ok(Strip(s))
  }

  /** A refusal as the outcome of a call. */
  function AsOutcome<T>(r: Result<T, Refusal>): Outcome<T> {
    match r
    case Ok(v) => Done(v)
    case Err(e) => Refused(e)
  }

  /** A text as it is stored: stripped, with known secrets taken out. */
  function Redacted(cfg: Config, s: string): string {
    cfg.redactKnown(Strip(s))
  }

  /** An empty optional argument counts as absent. */
  function Given(s: Option<string>): Option<string> {
    if s == Some("") then None else s
  }

  /** `source_key` of the built-in source. */
  const USER_SESSION := "user_session"

  const TRUNCATE_SUFFIX := "... [truncated, use get_raw_context to read full]"
  const SANITIZE_MAX_LEN: nat := 1500

  function SanitizeAndTruncate(s: string): string {
    if |s| <= SANITIZE_MAX_LEN then s else s[..SANITIZE_MAX_LEN - |TRUNCATE_SUFFIX|] + TRUNCATE_SUFFIX
  }

  /** A view's text has at most 1500 characters; a longer one is cut to that and says so at its end. */
  lemma SanitizedText(s: string)
    ensures |SanitizeAndTruncate(s)| == if |s| <= 1500 then |s| else 1500
    ensures |s| <= 1500 ==> SanitizeAndTruncate(s) == s
    ensures |s| > 1500 ==> exists n :: 0 <= n <= |s| && SanitizeAndTruncate(s) == s[..n] + TRUNCATE_SUFFIX
  {
  }

  /** A database session inside one transaction; `db` is what the transaction sees. */
  class Session {
    var db: Store

    constructor (committed: Store)
      ensures db == committed
    {
      db := committed;
    }

    /** Back to a savepoint, or to the start of the transaction. */
    method RollbackTo(saved: Store)
      modifies this
      ensures db == saved
    {
      db := saved;
    }
  }
}
