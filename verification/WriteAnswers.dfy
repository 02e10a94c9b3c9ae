/** What one fact write answers and stores, read off the request and the rows it meets. */
module WriteAnswers {
  import opened Wrappers
  import opened Text
  import opened Calendar
  import opened KeyTemplates
  import opened Namespaces
  import opened Database
  import opened RawEvents
  import opened Facts
  import opened FactWrites
  import opened BatchLaws

  // ---- the request ------------------------------------------------------------------

  /** The request is for this key, which this namespace owns. */
  predicate IsFor(cfg: Config, rows: Rows, req: WriteRequest, key: string, ns: string) {
    KeySpec(cfg, rows, req) == Done(key) && ValidateKey(rows, key) == Done(ns)
  }

  predicate IsBlank(s: Option<string>) {
    s == None || s == Some("")
  }

  /** A request names its key, or a namespace that builds it; an empty argument counts as absent. */
  lemma KeyIff(cfg: Config, rows: Rows, req: WriteRequest, key: string)
    ensures KeySpec(cfg, rows, req) == Done(key)
            <==>
            || (IsBlank(req.namespace) && !IsBlank(req.factKey) && HasText(req.factKey.value) && key == Strip(req.factKey.value))
            || (IsBlank(req.factKey) && !IsBlank(req.namespace)
                && var name := Lower(Strip(req.namespace.value));
                   Storable(name) && name in rows && Build(cfg.fold, name, rows[name].template, req.parts) == Ok(key))
  {
    if req.factKey.Some? { BlankIff(req.factKey.value); }
    BlankIff("");
  }

  predicate ChangeKnown(name: string) {
    exists c: Change :: name == ChangeName(c)
  }

  /** The fields pass their checks. */
  predicate FieldsPass(cfg: Config, req: WriteRequest) {
    && ChangeKnown(req.changeType)
    && HasText(req.title) && HasText(req.summary) && HasText(req.content) && HasText(req.reason)
    && |Redacted(cfg, req.summary)| <= 280 && |Redacted(cfg, req.content)| <= cfg.maxTextChars
    && forall i :: 0 <= i < |req.sources| ==> req.sources[i].SourceArg?
  }

  function RedactedAttrs(cfg: Config, attrs: Option<Attrs>): Option<Attrs> {
    if attrs.Some? && attrs.value != map[] then Some(cfg.redactAttrs(attrs.value)) else attrs
  }

  lemma ChangeOf(name: string)
    ensures ParseChange(name).Some? <==> ChangeKnown(name)
    ensures ParseChange(name) == Some(Create) <==> name == "create"
    ensures ParseChange(name).Some? ==> ChangeName(ParseChange(name).value) == name
  {
    ParseChangeIff(name, Create);
    if ParseChange(name).Some? { ParseChangeIff(name, ParseChange(name).value); }
    if c: Change :| name == ChangeName(c) { ParseChangeIff(name, c); }
  }

  lemma FieldsIff(cfg: Config, req: WriteRequest, key: string, ns: string, kind: Kind)
    ensures if FieldsPass(cfg, req) then PrepareFields(cfg, req, key, ns, kind).Ok?
            else PrepareFields(cfg, req, key, ns, kind) == Err(Invalid)
  {
    ChangeOf(req.changeType);
    BlankIff(req.title);
    BlankIff(req.summary);
    BlankIff(req.content);
    BlankIff(req.reason);
  }

  /** A write goes as far as the row exactly when it names a key that a namespace owns and its fields
      pass. */
  lemma PreparedIff(cfg: Config, rows: Rows, req: WriteRequest, key: string, ns: string)
    requires IsFor(cfg, rows, req, key, ns)
    ensures if FieldsPass(cfg, req) then Prepare(cfg, rows, req).Done? else Prepare(cfg, rows, req) == Refused(Invalid)
  {
    FieldsIff(cfg, req, key, ns, if ns in rows then rows[ns].defaultKind else Fact);
  }

  predicate AreRefs(cfg: Config, refs: seq<SourceRef>, args: seq<SourceArg>) {
    |refs| == |args| && forall i :: 0 <= i < |refs| ==> args[i].SourceArg? && refs[i] == RefOf(cfg, args[i])
  }

  /** The write that the request asks for. */
  predicate IsPrepared(cfg: Config, rows: Rows, req: WriteRequest, key: string, ns: string, p: Prepared) {
    && p.key == key && p.namespace == ns && p.base == req.baseRevision && p.kind == Given(req.kind)
    && ChangeName(p.change) == req.changeType
    && p.reason == Redacted(cfg, req.reason)
    && p.defaultKind == (if ns in rows then rows[ns].defaultKind else Fact)
    && p.value == Value(Redacted(cfg, req.title), Redacted(cfg, req.summary), Redacted(cfg, req.content),
                        req.status, RedactedAttrs(cfg, req.attrs))
    && AreRefs(cfg, p.refs, req.sources)
  }

  lemma PreparedAs(cfg: Config, rows: Rows, req: WriteRequest, key: string, ns: string)
    requires IsFor(cfg, rows, req, key, ns) && FieldsPass(cfg, req)
    ensures Prepare(cfg, rows, req).Done? && IsPrepared(cfg, rows, req, key, ns, Prepare(cfg, rows, req).value)
  {
    PreparedIff(cfg, rows, req, key, ns);
    ChangeOf(req.changeType);
  }

  // ---- the verdict ------------------------------------------------------------------

  /** The stored fact has this title, summary, content and status, and these attributes, with none
      and empty ones the same. */
  predicate Holds(f: FactRow, v: Value) {
    && f.value.title == v.title && f.value.summary == v.summary && f.value.content == v.content && f.value.status == v.status
    && SameAttrs(f.value.attrs, v.attrs)
  }

  predicate SameAttrs(a: Option<Attrs>, b: Option<Attrs>) {
    a == b || (a.None? && b == Some(map[])) || (b.None? && a == Some(map[]))
  }

  /** The write is on top of the stored revision, and creates exactly what is not there. */
  predicate OnTop(row: Option<FactRow>, base: int, create: bool) {
    match row
    case None => base == 0 && create
    case Some(f) => base == f.revision && !create
  }

  predicate SourceFound(sources: map<string, bool>, key: string) {
    Storable(key) && (key == "user_session" || (key in sources && sources[key]))
  }

  predicate AllFound(sources: map<string, bool>, keys: seq<string>) {
    forall i :: 0 <= i < |keys| ==> SourceFound(sources, keys[i])
  }

  /** The first key that is not found. */
  predicate MissingAt(sources: map<string, bool>, keys: seq<string>, i: nat)
    requires i < |keys|
  {
    !SourceFound(sources, keys[i]) && forall j :: 0 <= j < i ==> SourceFound(sources, keys[j])
  }

  /** The first key that is not found is one that the database could look up. */
  predicate UnknownFirst(sources: map<string, bool>, keys: seq<string>) {
    exists i :: 0 <= i < |keys| && MissingAt(sources, keys, i) && Storable(keys[i])
  }

  function KeysOf(refs: seq<SourceRef>): (keys: seq<string>)
    ensures |keys| == |refs|
  {
    seq(|refs|, i requires 0 <= i < |refs| => refs[i].sourceKey)
  }

  lemma MissingLater(sources: map<string, bool>, keys: seq<string>, i: nat)
    requires 1 <= i < |keys|
    ensures MissingAt(sources, keys, i) <==> SourceFound(sources, keys[0]) && MissingAt(sources, keys[1..], i - 1)
  {
    var rest := keys[1..];
    if MissingAt(sources, keys, i) {
      forall j | 0 <= j < i - 1 ensures SourceFound(sources, rest[j]) { assert rest[j] == keys[j + 1]; }
    }
    if SourceFound(sources, keys[0]) && MissingAt(sources, rest, i - 1) {
      forall j | 0 <= j < i ensures SourceFound(sources, keys[j]) { assert j > 0 ==> keys[j] == rest[j - 1]; }
    }
  }

  lemma UnknownLater(sources: map<string, bool>, keys: seq<string>)
    requires keys != []
    ensures UnknownFirst(sources, keys)
            <==> if SourceFound(sources, keys[0]) then UnknownFirst(sources, keys[1..]) else Storable(keys[0])
  {
    var rest := keys[1..];
    forall i | 1 <= i < |keys| { MissingLater(sources, keys, i); }
    assert MissingAt(sources, keys, 0) <==> !SourceFound(sources, keys[0]);
    if i :| 0 <= i < |keys| && MissingAt(sources, keys, i) && Storable(keys[i]) {
      if i > 0 { assert MissingAt(sources, rest, i - 1) && Storable(rest[i - 1]); }
    }
    if i :| 0 <= i < |rest| && MissingAt(sources, rest, i) && Storable(rest[i]) {
      assert SourceFound(sources, keys[0]) ==> MissingAt(sources, keys, i + 1) && Storable(keys[i + 1]);
    }
  }

  lemma FindFirstSource(sources: map<string, bool>, refs: seq<SourceRef>)
    requires refs != []
    ensures var key := KeysOf(refs)[0];
            FindSources(sources, refs)
            == if SourceFound(sources, key) then FindSources(sources, refs[1..])
               else if Storable(key) then Refused(NotFound) else Crashed
    ensures KeysOf(refs)[1..] == KeysOf(refs[1..])
  {
  }

  lemma {:induction false} FindSourcesIff(sources: map<string, bool>, refs: seq<SourceRef>)
    ensures FindSources(sources, refs).Done? <==> AllFound(sources, KeysOf(refs))
    ensures FindSources(sources, refs).Refused? <==> UnknownFirst(sources, KeysOf(refs))
    ensures FindSources(sources, refs).Refused? ==> FindSources(sources, refs).error == NotFound
  {
    if refs != [] {
      var keys := KeysOf(refs);
      FindSourcesIff(sources, refs[1..]);
      FindFirstSource(sources, refs);
      UnknownLater(sources, keys);
      assert AllFound(sources, keys) <==> SourceFound(sources, keys[0]) && AllFound(sources, keys[1..]) by {
        if SourceFound(sources, keys[0]) && AllFound(sources, keys[1..]) {
          forall i | 0 <= i < |keys| ensures SourceFound(sources, keys[i]) { assert i > 0 ==> keys[i] == keys[1..][i - 1]; }
        }
      }
    }
  }

  predicate KindKnown(kind: Option<string>) {
    kind.Some? ==> exists k: Kind :: kind.value == KindName(k)
  }

  lemma KindIff(kind: Option<string>)
    ensures KindKnown(kind) <==> !(kind.Some? && ParseKind(kind.value).None?)
  {
    if kind.Some? {
      if k: Kind :| kind.value == KindName(k) { ParseKindIff(kind.value, k); }
      if ParseKind(kind.value).Some? { ParseKindIff(kind.value, ParseKind(kind.value).value); }
    }
  }

  /** The verdict, case by case. */
  lemma VerdictIs(sources: map<string, bool>, p: Prepared, row: Option<FactRow>)
    ensures var top, same := OnTop(row, p.base, p.change == Create), row.Some? && Holds(row.value, p.value);
            && (Decide(sources, p, row) == Verdict.Same <==> top && same)
            && (Decide(sources, p, row) == Go <==> top && !same && AllFound(sources, KeysOf(p.refs)) && KindKnown(p.kind))
            && (Decide(sources, p, row).Fail? <==> top && !same && FindSources(sources, p.refs).Crashed?)
            && (Decide(sources, p, row) == Refuse(NotFound) <==> top && !same && FindSources(sources, p.refs).Refused?)
    ensures Decide(sources, p, row).Refuse? && Decide(sources, p, row).error.Conflict? <==> p.base != Current(row)
  {
    FindSourcesIff(sources, p.refs);
    KindIff(p.kind);
  }

  // ---- the rows of a write ----------------------------------------------------------

  predicate Cites(cfg: Config, refs: seq<SourceRef>, n: nat, id: EventId)
    requires n <= |refs|
  {
    exists i :: 0 <= i < n && EventOf(cfg, refs[i]) == Some(id)
  }

  predicate TouchedOnly(cfg: Config, before: Events, after: Events, refs: seq<SourceRef>, n: nat, now: nat)
    requires n <= |refs|
  {
    && after.Keys == before.Keys
    && forall id :: id in before ==>
         after[id] == if Cites(cfg, refs, n, id) && TouchDue(cfg, before[id], now) then before[id].(touchedAt := now) else before[id]
  }

  lemma CitesMore(cfg: Config, refs: seq<SourceRef>, n: nat, id: EventId)
    requires 1 <= n <= |refs|
    ensures Cites(cfg, refs, n, id) <==> Cites(cfg, refs, n - 1, id) || EventOf(cfg, refs[n - 1]) == Some(id)
  {
    if Cites(cfg, refs, n, id) { var i :| 0 <= i < n && EventOf(cfg, refs[i]) == Some(id); }
  }

  lemma TouchedMore(cfg: Config, events: Events, mid: Events, partitions: set<nat>, refs: seq<SourceRef>, n: nat, now: nat)
    requires 1 <= n <= |refs| && TouchedOnly(cfg, events, mid, refs, n - 1, now)
    requires var id := EventOf(cfg, refs[n - 1]); id.Some? ==> TouchSpec(cfg, mid, partitions, id.value, now).Done?
    ensures var id := EventOf(cfg, refs[n - 1]);
            TouchedOnly(cfg, events, if id.None? then mid else TouchSpec(cfg, mid, partitions, id.value, now).value, refs, n, now)
  {
    forall id: EventId { CitesMore(cfg, refs, n, id); }
  }

  /** The cited events whose touch is due are touched, and nothing else happens to any event. */
  lemma {:induction false} TouchesAre(cfg: Config, events: Events, partitions: set<nat>, refs: seq<SourceRef>, n: nat, now: nat)
    requires n <= |refs| && TouchFirst(cfg, events, partitions, refs, n, now).Done?
    ensures TouchedOnly(cfg, events, TouchFirst(cfg, events, partitions, refs, n, now).value, refs, n, now)
  {
    if n > 0 {
      TouchesAre(cfg, events, partitions, refs, n - 1, now);
      TouchedMore(cfg, events, TouchFirst(cfg, events, partitions, refs, n - 1, now).value, partitions, refs, n, now);
    }
  }

  /** The stored row: the request's text as its columns keep it, the content in full, one revision
      later. */
  predicate RowIsOf(cfg: Config, rows: Rows, f: FactRow, before: Option<FactRow>, req: WriteRequest, ns: string, now: nat) {
    && f.value.content == Redacted(cfg, req.content)
    && f.value.title == Cut(Redacted(cfg, req.title), 512) && f.value.summary == Cut(Redacted(cfg, req.summary), 280)
    && (f.value.status.None? <==> req.status.None?)
    && (req.status.Some? ==> f.value.status.value == Cut(req.status.value, 32))
    && f.value.attrs == RedactedAttrs(cfg, req.attrs)
    && f.revision == req.baseRevision + 1 && f.updatedAt == now
    && f.createdAt == (if before.Some? then before.value.createdAt else now)
    && f.namespace == (if before.Some? then before.value.namespace else ns)
    && (if IsBlank(req.kind) then f.kind == if before.Some? then before.value.kind else if ns in rows then rows[ns].defaultKind else Fact
        else KindName(f.kind) == req.kind.value)
  }

  predicate RevisionIsOf(cfg: Config, r: Revision, f: FactRow, req: WriteRequest, now: nat) {
    ChangeName(r.change) == req.changeType && r.reason == Redacted(cfg, req.reason) && r.value == f.value && r.changedAt == now
  }

  /** The source that an argument means. */
  function SourceMeant(a: SourceArg): string {
    if a.NotAnObject? || a.sourceKey.None? || !HasText(a.sourceKey.value) then "user_session" else Strip(a.sourceKey.value)
  }

  function SourcesMeant(args: seq<SourceArg>): (keys: seq<string>)
    ensures |keys| == |args|
  {
    seq(|args|, i requires 0 <= i < |args| => SourceMeant(args[i]))
  }

  /** A citation of one source of the request. */
  predicate CitationIsOf(cfg: Config, c: Citation, id: RevisionId, a: SourceArg) {
    && a.SourceArg? && c.revision == id
    && c.sourceKey == SourceMeant(a)
    && (if IsBlank(a.url) then c.url == None else c.url == Some(cfg.redactKnown(a.url.value)))
    && (if IsBlank(a.rawEvent) then c.event == None else c.event.Some? && c.event == cfg.parseUuid(a.rawEvent.value))
    && (if IsBlank(a.sourceHash) then c.sourceHash == None else c.sourceHash == Some(Cut(a.sourceHash.value, 64)))
  }

  predicate CitationsAreOf(cfg: Config, before: seq<Citation>, after: seq<Citation>, id: RevisionId, sources: seq<SourceArg>) {
    && |after| == |before| + |sources| && before <= after
    && forall i :: 0 <= i < |sources| ==> CitationIsOf(cfg, after[|before| + i], id, sources[i])
  }

  /** The answer shows the request's value, uncut but for a long content. */
  predicate ViewIsOf(cfg: Config, v: FactView, f: FactRow, req: WriteRequest, key: string, ns: string) {
    && v.key == key && v.namespace == ns && v.kind == f.kind && v.revision == f.revision && v.status == req.status
    && v.title == Redacted(cfg, req.title) && v.summary == Redacted(cfg, req.summary)
    && v.content == SanitizeAndTruncate(Redacted(cfg, req.content)) && v.attrs == RedactedAttrs(cfg, req.attrs)
  }

  /** The events of the sources whose touch is due are touched. */
  predicate EventsAreTouched(cfg: Config, before: Events, after: Events, sources: seq<SourceArg>, now: nat) {
    && after.Keys == before.Keys
    && forall id :: id in before ==>
         after[id] == if Names(cfg, sources, id) && TouchDue(cfg, before[id], now) then before[id].(touchedAt := now) else before[id]
  }

  predicate Names(cfg: Config, sources: seq<SourceArg>, id: EventId) {
    exists i :: 0 <= i < |sources| && sources[i].SourceArg? && !IsBlank(sources[i].rawEvent)
                && cfg.parseUuid(sources[i].rawEvent.value) == Some(id)
  }

  lemma CitationIs(cfg: Config, id: RevisionId, a: SourceArg)
    requires a.SourceArg? && !BadUuid(cfg, RefOf(cfg, a))
    ensures CitationIsOf(cfg, CitationOf(cfg, id, RefOf(cfg, a)), id, a)
    ensures EventOf(cfg, RefOf(cfg, a)) == if IsBlank(a.rawEvent) then None else cfg.parseUuid(a.rawEvent.value)
  {
    SourceMeantIs(cfg, a);
  }

  lemma RowIs(cfg: Config, rows: Rows, p: Prepared, row: Option<FactRow>, req: WriteRequest, key: string, ns: string, now: nat)
    requires IsPrepared(cfg, rows, req, key, ns, p) && p.base == Current(row) && KindKnown(p.kind)
    ensures RowIsOf(cfg, rows, StoredRow(p, row, now), row, req, ns, now)
    ensures RevisionIsOf(cfg, NewRevision(p, now), StoredRow(p, row, now), req, now)
    ensures ViewIsOf(cfg, View(p.key, p.namespace, NewRow(p, row, now)), StoredRow(p, row, now), req, key, ns)
  {
    KindIff(p.kind);
    if p.kind.Some? { ParseKindIff(p.kind.value, ParseKind(p.kind.value).value); }
  }

  lemma CitationsAre(cfg: Config, p: Prepared, before: seq<Citation>, id: RevisionId, sources: seq<SourceArg>)
    requires AreRefs(cfg, p.refs, sources)
    requires !AnyBadUuid(cfg, p.refs)
    ensures CitationsAreOf(cfg, before, before + Citations(cfg, id, p.refs), id, sources)
  {
    forall i | 0 <= i < |sources| ensures CitationIsOf(cfg, (before + Citations(cfg, id, p.refs))[|before| + i], id, sources[i]) {
      CitationIs(cfg, id, sources[i]);
    }
  }

  lemma EventsAre(cfg: Config, events: Events, partitions: set<nat>, refs: seq<SourceRef>, sources: seq<SourceArg>, now: nat)
    requires AreRefs(cfg, refs, sources)
    requires TouchFirst(cfg, events, partitions, refs, |refs|, now).Done?
    ensures EventsAreTouched(cfg, events, TouchFirst(cfg, events, partitions, refs, |refs|, now).value, sources, now)
  {
    TouchesAre(cfg, events, partitions, refs, |refs|, now);
    forall id: EventId ensures Names(cfg, sources, id) <==> Cites(cfg, refs, |refs|, id) {
      SameNames(cfg, refs, sources, id);
    }
  }

  lemma SameNames(cfg: Config, refs: seq<SourceRef>, sources: seq<SourceArg>, id: EventId)
    requires AreRefs(cfg, refs, sources)
    ensures Names(cfg, sources, id) <==> Cites(cfg, refs, |refs|, id)
  {
    if Names(cfg, sources, id) {
      var i :| 0 <= i < |sources| && sources[i].SourceArg? && !IsBlank(sources[i].rawEvent)
               && cfg.parseUuid(sources[i].rawEvent.value) == Some(id);
      assert EventOf(cfg, refs[i]) == Some(id);
    }
    if Cites(cfg, refs, |refs|, id) {
      var i :| 0 <= i < |refs| && EventOf(cfg, refs[i]) == Some(id);
      assert !IsBlank(sources[i].rawEvent);
    }
  }

  // ---- the answer -------------------------------------------------------------------

  /** The stored fact already has what the request asks for. */
  predicate HasAlready(cfg: Config, f: FactRow, req: WriteRequest) {
    Holds(f, Value(Redacted(cfg, req.title), Redacted(cfg, req.summary), Redacted(cfg, req.content), req.status,
                   RedactedAttrs(cfg, req.attrs)))
  }

  /** The request is on top of what is stored, and is not what is stored. */
  predicate IsNews(cfg: Config, row: Option<FactRow>, req: WriteRequest) {
    OnTop(row, req.baseRevision, req.changeType == "create") && !(row.Some? && HasAlready(cfg, row.value, req))
  }

  predicate ColumnsTake(cfg: Config, req: WriteRequest, key: string) {
    && Storable(key) && |key| <= 512
    && Fits(Redacted(cfg, req.title), 512) && Fits(Redacted(cfg, req.summary), 280)
    && Storable(Redacted(cfg, req.content)) && Storable(Redacted(cfg, req.reason))
    && (req.status.Some? ==> Fits(req.status.value, 32))
    && (req.attrs.Some? ==> StorableAttrs(RedactedAttrs(cfg, req.attrs).value))
  }

  predicate SourcesTake(cfg: Config, args: seq<SourceArg>) {
    forall i :: 0 <= i < |args| && args[i].SourceArg? ==>
      && (!IsBlank(args[i].url) ==> Storable(cfg.redactKnown(args[i].url.value)))
      && (!IsBlank(args[i].sourceHash) ==> Fits(args[i].sourceHash.value, 64))
  }

  predicate IdsReadable(cfg: Config, args: seq<SourceArg>) {
    forall i :: 0 <= i < |args| && args[i].SourceArg? && !IsBlank(args[i].rawEvent) ==> cfg.parseUuid(args[i].rawEvent.value).Some?
  }

  /** Every touch that is due finds the partition of the month. */
  predicate TouchesPossible(cfg: Config, s: Store, args: seq<SourceArg>, now: nat) {
    MonthOf(now) in s.partitions || forall id :: id in s.events && Names(cfg, args, id) ==> !TouchDue(cfg, s.events[id], now)
  }

  lemma SourceMeantIs(cfg: Config, a: SourceArg)
    requires a.SourceArg?
    ensures RefOf(cfg, a).sourceKey == SourceMeant(a)
  {
    if a.sourceKey.Some? { BlankIff(a.sourceKey.value); }
  }

  lemma SourcesAreMeant(cfg: Config, refs: seq<SourceRef>, args: seq<SourceArg>)
    requires AreRefs(cfg, refs, args)
    ensures KeysOf(refs) == SourcesMeant(args)
  {
    forall i | 0 <= i < |args| ensures refs[i].sourceKey == SourceMeant(args[i]) { SourceMeantIs(cfg, args[i]); }
  }

  lemma RefsTakeIff(cfg: Config, refs: seq<SourceRef>, args: seq<SourceArg>)
    requires AreRefs(cfg, refs, args)
    ensures CitationsFit(refs) <==> SourcesTake(cfg, args)
    ensures AnyBadUuid(cfg, refs) <==> !IdsReadable(cfg, args)
  {
    if !IdsReadable(cfg, args) {
      var i :| 0 <= i < |args| && args[i].SourceArg? && !IsBlank(args[i].rawEvent) && cfg.parseUuid(args[i].rawEvent.value).None?;
      assert BadUuid(cfg, refs[i]);
    }
    if SourcesTake(cfg, args) {
      forall i | 0 <= i < |refs| ensures RefFits(refs[i]) { assert args[i].SourceArg?; }
    }
    if CitationsFit(refs) {
      forall i | 0 <= i < |args|
        ensures !IsBlank(args[i].url) ==> Storable(cfg.redactKnown(args[i].url.value))
        ensures !IsBlank(args[i].sourceHash) ==> Fits(args[i].sourceHash.value, 64)
      {
        assert RefFits(refs[i]);
      }
    }
  }

  lemma TouchesPossibleIff(cfg: Config, s: Store, refs: seq<SourceRef>, args: seq<SourceArg>, now: nat)
    requires AreRefs(cfg, refs, args)
    requires !AnyBadUuid(cfg, refs)
    ensures TouchCrashes(cfg, s, refs, now) <==> !TouchesPossible(cfg, s, args, now)
  {
    if TouchCrashes(cfg, s, refs, now) {
      var i :| 0 <= i < |refs| && IsDue(cfg, s.events, refs[i], now) && NoBadUuid(cfg, refs, i + 1);
      SameNames(cfg, refs, args, EventOf(cfg, refs[i]).value);
    }
    if !TouchesPossible(cfg, s, args, now) {
      var id :| id in s.events && Names(cfg, args, id) && TouchDue(cfg, s.events[id], now);
      SameNames(cfg, refs, args, id);
      var i :| 0 <= i < |refs| && EventOf(cfg, refs[i]) == Some(id);
      assert IsDue(cfg, s.events, refs[i], now) && NoBadUuid(cfg, refs, i + 1);
    }
  }

  lemma WroteIffPrepared(cfg: Config, s: Store, p: Prepared, now: nat, txnNow: nat)
    requires HistoryOk(s.tables)
    ensures IsWrite(WritePrepared(cfg, s, p, now, txnNow).0)
            <==> Decide(s.sources, p, RowOf(s.tables, p.key)) == Go && !FlushBreaks(cfg, s, p, txnNow) && !AnyBadUuid(cfg, p.refs)
  {
    NextRevisionIsFree(s.tables, p.key);
    FlushOutcome(cfg, s, p, RowOf(s.tables, p.key), now, txnNow);
  }

  /** A request that names no key, or a key that no namespace owns, is answered with that and changes
      nothing. */
  lemma NoKeyAnswers(cfg: Config, s: Store, req: WriteRequest, now: nat, txnNow: nat)
    ensures var key := KeySpec(cfg, s.namespaces, req);
            && (key.Refused? ==> WriteSpec(cfg, s, req, now, txnNow) == (Refused(key.error), s))
            && (key.Done? ==>
                  var ns := ValidateKey(s.namespaces, key.value);
                  ns.Refused? ==> WriteSpec(cfg, s, req, now, txnNow) == (Refused(ns.error), s))
  {
  }

  /** A field that does not pass is refused before anything is compared. */
  lemma FieldsAnswer(cfg: Config, s: Store, req: WriteRequest, now: nat, txnNow: nat, key: string, ns: string)
    requires IsFor(cfg, s.namespaces, req, key, ns) && !FieldsPass(cfg, req)
    ensures WriteSpec(cfg, s, req, now, txnNow) == (Refused(Invalid), s)
  {
    PreparedIff(cfg, s.namespaces, req, key, ns);
  }

  /** A write conflicts exactly when its base is not the stored revision, 0 for no fact; the answer has
      the stored revision and the stored fact. */
  lemma ConflictIff(cfg: Config, s: Store, req: WriteRequest, now: nat, txnNow: nat, key: string, ns: string)
    requires IsFor(cfg, s.namespaces, req, key, ns) && FieldsPass(cfg, req)
    ensures var answer := WriteSpec(cfg, s, req, now, txnNow).0;
            var current := if key in s.tables.facts then s.tables.facts[key].revision else 0;
            && (IsConflict(answer) <==> req.baseRevision != current)
            && (IsConflict(answer) ==>
                  && answer.error.current == current
                  && (answer.error.fact.Some? <==> key in s.tables.facts)
                  && (answer.error.fact.Some? ==> ShowsStored(answer.error.fact.value, s.tables.facts[key], key, ns)))
  {
    PreparedAs(cfg, s.namespaces, req, key, ns);
    var p := Prepare(cfg, s.namespaces, req).value;
    VerdictIs(s.sources, p, RowOf(s.tables, key));
    FlushOutcome(cfg, s, p, RowOf(s.tables, key), now, txnNow);
  }

  /** The view of a stored fact. */
  predicate ShowsStored(v: FactView, f: FactRow, key: string, ns: string) {
    && v.key == key && v.namespace == ns && v.kind == f.kind && v.revision == f.revision
    && v.title == f.value.title && v.summary == f.value.summary && v.content == SanitizeAndTruncate(f.value.content)
    && v.status == f.value.status && v.attrs == f.value.attrs
  }

  predicate IsUnchangedAnswer(answer: Outcome<WriteAnswer>) {
    answer.Done? && answer.value.Unchanged?
  }

  lemma UnchangedIffSame(cfg: Config, s: Store, p: Prepared, now: nat, txnNow: nat)
    ensures var (answer, u), row := WritePrepared(cfg, s, p, now, txnNow), RowOf(s.tables, p.key);
            && (IsUnchangedAnswer(answer) <==> Decide(s.sources, p, row) == Verdict.Same)
            && (IsUnchangedAnswer(answer) ==> u == s && row.Some? && ShowsStored(answer.value.fact, row.value, p.key, p.namespace))
  {
  }

  lemma PreparedUnchangedIff(cfg: Config, s: Store, p: Prepared, req: WriteRequest, key: string, ns: string)
    requires IsPrepared(cfg, s.namespaces, req, key, ns, p)
    ensures Decide(s.sources, p, RowOf(s.tables, key)) == Verdict.Same
            <==>
            && key in s.tables.facts
            && var f := s.tables.facts[key];
            && req.baseRevision == f.revision && req.changeType != "create"
            && f.value.title == Redacted(cfg, req.title) && f.value.summary == Redacted(cfg, req.summary)
            && f.value.content == Redacted(cfg, req.content) && f.value.status == req.status
            && SameAttrs(f.value.attrs, RedactedAttrs(cfg, req.attrs))
  {
    ParseChangeIff(req.changeType, p.change);
    ParseChangeIff(req.changeType, Create);
    VerdictIs(s.sources, p, RowOf(s.tables, key));
  }

  /** A write is answered as unchanged exactly when it is on top of the stored revision, creates
      nothing, and asks for the title, summary, content, status and attributes that are stored. It
      shows the stored fact and changes nothing. */
  lemma UnchangedIff(cfg: Config, s: Store, req: WriteRequest, now: nat, txnNow: nat, key: string, ns: string)
    requires IsFor(cfg, s.namespaces, req, key, ns)
    ensures IsUnchangedAnswer(WriteSpec(cfg, s, req, now, txnNow).0)
            <==>
            && FieldsPass(cfg, req) && key in s.tables.facts
            && var f := s.tables.facts[key];
            && req.baseRevision == f.revision && req.changeType != "create"
            && f.value.title == Redacted(cfg, req.title) && f.value.summary == Redacted(cfg, req.summary)
            && f.value.content == Redacted(cfg, req.content) && f.value.status == req.status
            && SameAttrs(f.value.attrs, RedactedAttrs(cfg, req.attrs))
    ensures var (answer, u) := WriteSpec(cfg, s, req, now, txnNow);
            IsUnchangedAnswer(answer) ==>
              u == s && key in s.tables.facts && ShowsStored(answer.value.fact, s.tables.facts[key], key, ns)
  {
    PreparedIff(cfg, s.namespaces, req, key, ns);
    if FieldsPass(cfg, req) {
      PreparedAs(cfg, s.namespaces, req, key, ns);
      var p := Prepare(cfg, s.namespaces, req).value;
      PreparedUnchangedIff(cfg, s, p, req, key, ns);
      UnchangedIffSame(cfg, s, p, now, txnNow);
    }
  }

  /** A write makes a new revision exactly when it is on top of what is stored, is not what is stored,
      its sources and kind are known, and the database takes everything that it writes. */
  lemma WroteIff(cfg: Config, s: Store, req: WriteRequest, now: nat, txnNow: nat, key: string, ns: string)
    requires IsFor(cfg, s.namespaces, req, key, ns) && HistoryOk(s.tables)
    ensures IsWrite(WriteSpec(cfg, s, req, now, txnNow).0)
            <==>
            && FieldsPass(cfg, req) && IsNews(cfg, RowOf(s.tables, key), req)
            && AllFound(s.sources, SourcesMeant(req.sources)) && IdsReadable(cfg, req.sources)
            && (IsBlank(req.kind) || KindKnown(req.kind))
            && ColumnsTake(cfg, req, key) && SourcesTake(cfg, req.sources) && TouchesPossible(cfg, s, req.sources, txnNow)
  {
    if FieldsPass(cfg, req) {
      PreparedAs(cfg, s.namespaces, req, key, ns);
      var p := Prepare(cfg, s.namespaces, req).value;
      PreparedWroteIff(cfg, s, p, req, now, txnNow, key, ns);
    } else {
      PreparedIff(cfg, s.namespaces, req, key, ns);
    }
  }

  lemma PreparedWroteIff(cfg: Config, s: Store, p: Prepared, req: WriteRequest, now: nat, txnNow: nat, key: string, ns: string)
    requires IsPrepared(cfg, s.namespaces, req, key, ns, p) && HistoryOk(s.tables)
    ensures IsWrite(WritePrepared(cfg, s, p, now, txnNow).0)
            <==>
            && IsNews(cfg, RowOf(s.tables, key), req)
            && AllFound(s.sources, SourcesMeant(req.sources)) && IdsReadable(cfg, req.sources)
            && (IsBlank(req.kind) || KindKnown(req.kind))
            && ColumnsTake(cfg, req, key) && SourcesTake(cfg, req.sources) && TouchesPossible(cfg, s, req.sources, txnNow)
  {
    PreparedNews(cfg, s, p, req, key, ns);
    WroteIffPrepared(cfg, s, p, now, txnNow);
    VerdictIs(s.sources, p, RowOf(s.tables, key));
    SourcesAreMeant(cfg, p.refs, req.sources);
    RefsTakeIff(cfg, p.refs, req.sources);
    if !AnyBadUuid(cfg, p.refs) { TouchesPossibleIff(cfg, s, p.refs, req.sources, txnNow); }
  }

  /** What a new revision stores and answers: the fact's row, its snapshot, one citation per source, the
      touches, and nothing else. */
  ghost predicate Stores(cfg: Config, s: Store, u: Store, req: WriteRequest, key: string, ns: string, now: nat, txnNow: nat) {
    var id := RevisionId(key, Current(RowOf(s.tables, key)) + 1);
    && key in u.tables.facts && id in u.tables.revisions
    && u.tables.facts == s.tables.facts[key := u.tables.facts[key]]
    && u.tables.revisions == s.tables.revisions[id := u.tables.revisions[id]] && id !in s.tables.revisions
    && RowIsOf(cfg, s.namespaces, u.tables.facts[key], RowOf(s.tables, key), req, ns, now)
    && RevisionIsOf(cfg, u.tables.revisions[id], u.tables.facts[key], req, now)
    && CitationsAreOf(cfg, s.tables.citations, u.tables.citations, id, req.sources)
    && EventsAreTouched(cfg, s.events, u.events, req.sources, txnNow)
    && u == s.(tables := u.tables, events := u.events)
  }

  lemma WrittenParts(cfg: Config, s: Store, p: Prepared, now: nat, txnNow: nat)
    requires IsWrite(WritePrepared(cfg, s, p, now, txnNow).0)
    ensures var row, touched := RowOf(s.tables, p.key), TouchFirst(cfg, s.events, s.partitions, p.refs, |p.refs|, txnNow);
            && touched.Done? && Decide(s.sources, p, row) == Go
            && WritePrepared(cfg, s, p, now, txnNow)
               == (Done(Wrote(p.change, View(p.key, p.namespace, NewRow(p, row, now)))),
                   s.(tables := WithRows(s.tables, Delta(cfg, p, row, now)), events := touched.value))
  {
  }

  lemma PreparedStores(cfg: Config, s: Store, p: Prepared, req: WriteRequest, key: string, ns: string, now: nat, txnNow: nat)
    requires IsPrepared(cfg, s.namespaces, req, key, ns, p) && HistoryOk(s.tables)
    requires IsWrite(WritePrepared(cfg, s, p, now, txnNow).0)
    ensures var (answer, u) := WritePrepared(cfg, s, p, now, txnNow);
            && Stores(cfg, s, u, req, key, ns, now, txnNow)
            && ChangeName(answer.value.change) == req.changeType
            && ViewIsOf(cfg, answer.value.fact, u.tables.facts[key], req, key, ns)
  {
    var row := RowOf(s.tables, key);
    WrittenParts(cfg, s, p, now, txnNow);
    VerdictIs(s.sources, p, row);
    TouchCrashesIff(cfg, s, p.refs, txnNow);
    NextRevisionIsFree(s.tables, key);
    RowIs(cfg, s.namespaces, p, row, req, key, ns, now);
    FlushedRows(cfg, s.tables, p, row, now);
    CitationsAre(cfg, p, s.tables.citations, RevisionIdOf(p, row), req.sources);
    EventsAre(cfg, s.events, s.partitions, p.refs, req.sources, txnNow);
  }

  /** A write that makes a new revision stores exactly what the request asks for, as the columns keep
      it, under the next number. */
  lemma WroteStores(cfg: Config, s: Store, req: WriteRequest, now: nat, txnNow: nat, key: string, ns: string)
    requires IsFor(cfg, s.namespaces, req, key, ns) && HistoryOk(s.tables)
    requires IsWrite(WriteSpec(cfg, s, req, now, txnNow).0)
    ensures var (answer, u) := WriteSpec(cfg, s, req, now, txnNow);
            && Stores(cfg, s, u, req, key, ns, now, txnNow)
            && ChangeName(answer.value.change) == req.changeType
            && ViewIsOf(cfg, answer.value.fact, u.tables.facts[key], req, key, ns)
  {
    PreparedIff(cfg, s.namespaces, req, key, ns);
    PreparedAs(cfg, s.namespaces, req, key, ns);
    PreparedStores(cfg, s, Prepare(cfg, s.namespaces, req).value, req, key, ns, now, txnNow);
  }

  /** Whatever is answered, a content is never lost: after a write that is no error the stored fact has
      the request's content in full, at the base revision or the one after it. */
  lemma AnsweredContentIsStored(cfg: Config, s: Store, req: WriteRequest, now: nat, txnNow: nat, key: string, ns: string)
    requires IsFor(cfg, s.namespaces, req, key, ns) && HistoryOk(s.tables)
    requires WriteSpec(cfg, s, req, now, txnNow).0.Done?
    ensures var (answer, u) := WriteSpec(cfg, s, req, now, txnNow);
            && key in u.tables.facts
            && u.tables.facts[key].value.content == Redacted(cfg, req.content)
            && u.tables.facts[key].revision == req.baseRevision + if answer.value.Wrote? then 1 else 0
  {
    if IsWrite(WriteSpec(cfg, s, req, now, txnNow).0) {
      WroteStores(cfg, s, req, now, txnNow, key, ns);
    } else {
      UnchangedIff(cfg, s, req, now, txnNow, key, ns);
    }
  }

  /** An error changes nothing. */
  lemma ErrorChangesNothing(cfg: Config, s: Store, req: WriteRequest, now: nat, txnNow: nat)
    requires !WriteSpec(cfg, s, req, now, txnNow).0.Done?
    ensures WriteSpec(cfg, s, req, now, txnNow).1 == s
  {
  }

  lemma NotFoundIffRefused(cfg: Config, s: Store, p: Prepared, now: nat, txnNow: nat)
    ensures WritePrepared(cfg, s, p, now, txnNow).0 == Refused(NotFound)
            <==> Decide(s.sources, p, RowOf(s.tables, p.key)) == Refuse(NotFound)
  {
    FlushOutcome(cfg, s, p, RowOf(s.tables, p.key), now, txnNow);
  }

  /** A source is reported as not found exactly when the write would make a new revision otherwise and
      the first source that is missing could be looked up. */
  lemma NotFoundIff(cfg: Config, s: Store, req: WriteRequest, now: nat, txnNow: nat, key: string, ns: string)
    requires IsFor(cfg, s.namespaces, req, key, ns) && FieldsPass(cfg, req)
    ensures WriteSpec(cfg, s, req, now, txnNow).0 == Refused(NotFound)
            <==> IsNews(cfg, RowOf(s.tables, key), req) && UnknownFirst(s.sources, SourcesMeant(req.sources))
  {
    PreparedAs(cfg, s.namespaces, req, key, ns);
    var p := Prepare(cfg, s.namespaces, req).value;
    NotFoundIffRefused(cfg, s, p, now, txnNow);
    PreparedNews(cfg, s, p, req, key, ns);
    VerdictIs(s.sources, p, RowOf(s.tables, key));
    FindSourcesIff(s.sources, p.refs);
    SourcesAreMeant(cfg, p.refs, req.sources);
  }

  lemma PreparedNews(cfg: Config, s: Store, p: Prepared, req: WriteRequest, key: string, ns: string)
    requires IsPrepared(cfg, s.namespaces, req, key, ns, p)
    ensures var row := RowOf(s.tables, key);
            IsNews(cfg, row, req) <==> OnTop(row, p.base, p.change == Create) && !(row.Some? && Holds(row.value, p.value))
  {
    ParseChangeIff(req.changeType, p.change);
    ParseChangeIff(req.changeType, Create);
  }

  // ---- items of a batch -------------------------------------------------------------

  /** Item `i` of a batch is answered, and changes the store, as a call of its own would after the items
      before it. */
  predicate ItemIsCall(cfg: Config, before: Store, item: Item, txnNow: nat, answer: ItemAnswer, after: Store) {
    match item
    case Malformed => answer == Error(Invalid) && after == before
    case Call(req, now) =>
      match WriteSpec(cfg, before, req, now, txnNow)
      case (Done(a), u) => answer == Answered(a) && after == u
      case (Refused(e), _) => answer == Error(e) && after == before
      case (Crashed, _) => false
  }

  lemma JobIsCall(cfg: Config, s: Store, item: Item, txnNow: nat)
    requires JobSpec(cfg, s, JobOf(cfg, s.namespaces, item), txnNow).Done?
    ensures var (answer, u) := JobSpec(cfg, s, JobOf(cfg, s.namespaces, item), txnNow).value;
            ItemIsCall(cfg, s, item, txnNow, answer, u) && u.namespaces == s.namespaces
  {
    if item.Call? { CallIsJob(cfg, s, item.req, item.now, txnNow); }
  }

  lemma BatchLast(cfg: Config, s: Store, jobs: seq<Job>, n: nat, txnNow: nat)
    requires 1 <= n <= |jobs| && BatchSpec(cfg, s, jobs, n, txnNow).Done?
    ensures BatchSpec(cfg, s, jobs, n - 1, txnNow).Done?
    ensures var (answers, u) := BatchSpec(cfg, s, jobs, n - 1, txnNow).value;
            var job := JobSpec(cfg, u, jobs[n - 1], txnNow);
            job.Done? && BatchSpec(cfg, s, jobs, n, txnNow).value == (answers + [job.value.0], job.value.1)
  {
  }

  lemma {:induction false} BatchNamespaces(cfg: Config, s: Store, items: seq<Item>, n: nat, txnNow: nat)
    requires n <= |items| && BatchSpec(cfg, s, Jobs(cfg, s.namespaces, items), n, txnNow).Done?
    ensures BatchSpec(cfg, s, Jobs(cfg, s.namespaces, items), n, txnNow).value.1.namespaces == s.namespaces
  {
    if n > 0 {
      var jobs := Jobs(cfg, s.namespaces, items);
      BatchLast(cfg, s, jobs, n, txnNow);
      BatchNamespaces(cfg, s, items, n - 1, txnNow);
      JobIsCall(cfg, BatchSpec(cfg, s, jobs, n - 1, txnNow).value.1, items[n - 1], txnNow);
    }
  }

  lemma {:induction false} BatchBefore(cfg: Config, s: Store, jobs: seq<Job>, i: nat, n: nat, txnNow: nat)
    requires i <= n <= |jobs| && BatchSpec(cfg, s, jobs, n, txnNow).Done?
    ensures BatchSpec(cfg, s, jobs, i, txnNow).Done?
    ensures |BatchSpec(cfg, s, jobs, i, txnNow).value.0| == i
    ensures BatchSpec(cfg, s, jobs, i, txnNow).value.0 <= BatchSpec(cfg, s, jobs, n, txnNow).value.0
  {
    if n > 0 {
      BatchLast(cfg, s, jobs, n, txnNow);
      BatchBefore(cfg, s, jobs, if i < n then i else n - 1, n - 1, txnNow);
    }
  }

  /** In a batch that completes, every item is answered, and changes the store, as a call of its own. */
  lemma ItemsAreCalls(cfg: Config, s: Store, items: seq<Item>, i: nat, txnNow: nat)
    requires i < |items| && BatchSpec(cfg, s, Jobs(cfg, s.namespaces, items), |items|, txnNow).Done?
    ensures var jobs := Jobs(cfg, s.namespaces, items);
            var before, after := BatchSpec(cfg, s, jobs, i, txnNow), BatchSpec(cfg, s, jobs, i + 1, txnNow);
            && before.Done? && after.Done?
            && |BatchSpec(cfg, s, jobs, |items|, txnNow).value.0| == |items|
            && ItemIsCall(cfg, before.value.1, items[i], txnNow, BatchSpec(cfg, s, jobs, |items|, txnNow).value.0[i], after.value.1)
  {
    var jobs := Jobs(cfg, s.namespaces, items);
    BatchBefore(cfg, s, jobs, |items|, |items|, txnNow);
    BatchBefore(cfg, s, jobs, i + 1, |items|, txnNow);
    BatchBefore(cfg, s, jobs, i, i + 1, txnNow);
    BatchLast(cfg, s, jobs, i + 1, txnNow);
    BatchNamespaces(cfg, s, items, i, txnNow);
    JobIsCall(cfg, BatchSpec(cfg, s, jobs, i, txnNow).value.1, items[i], txnNow);
  }

  /** The places of the answers that are no errors. */
  function Answers(answers: seq<ItemAnswer>): set<nat> {
    set i: nat | i < |answers| && answers[i].Answered?
  }

  /** The reported number of written items is the number of answers that are no errors. */
  lemma {:induction false} WrittenIsCounted(answers: seq<ItemAnswer>)
    ensures CountAnswered(answers) == |Answers(answers)|
  {
    if answers != [] {
      var n := |answers| - 1;
      WrittenIsCounted(answers[..n]);
      assert Answers(answers) == Answers(answers[..n]) + if answers[n].Answered? then {n as nat} else {};
    }
  }
}
