/** Namespaces own key templates; the longest one whose template accepts a key owns the key. */
module Namespaces {
  import opened Wrappers
  import opened Text
  import opened Slugs
  import opened KeyTemplates
  import opened Database

  type Rows = map<string, Namespace>

  const NAMESPACE_WIDTH: nat := 256
  const TEMPLATE_WIDTH: nat := 512

  /** What `upsert_namespace` and the widths of the columns let into the table. */
  ghost predicate NamespacesOk(rows: Rows) {
    forall ns :: ns in rows ==> NamespaceOk(ns, rows[ns])
  }

  ghost predicate NamespaceOk(ns: string, row: Namespace) {
    && ValidNamespace(ns) && TemplateOk(ns, row.template) && Trimmed(row.template)
    && |ns| <= NAMESPACE_WIDTH && |row.template| <= TEMPLATE_WIDTH
  }

  // ---- the candidates of a key ------------------------------------------------------

  /** SQL `LIKE` with the default escape. */
  predicate Like(s: string, pattern: string)
    decreases |pattern|
  {
    if pattern == "" then s == ""
    else if pattern[0] == '%' then exists k :: 0 <= k <= |s| && Like(s[k..], pattern[1..])
    else if pattern[0] == '_' then s != "" && Like(s[1..], pattern[1..])
    else if pattern[0] == '\\' && |pattern| > 1 then s != "" && s[0] == pattern[1] && Like(s[1..], pattern[2..])
    else s != "" && s[0] == pattern[0] && Like(s[1..], pattern[1..])
  }

  lemma {:induction false} LikeLiteral(s: string, literal: string)
    requires '%' !in literal && '_' !in literal && '\\' !in literal
    ensures Like(s, literal + "%") <==> literal <= s
  {
    var pattern := literal + "%";
    if literal == "" {
      assert Like(s[|s|..], pattern[1..]);
    } else {
      assert pattern[1..] == literal[1..] + "%";
      if s != "" {
        LikeLiteral(s[1..], literal[1..]);
        assert literal == [literal[0]] + literal[1..] && s == [s[0]] + s[1..];
      }
    }
  }

  /** For a stored namespace the query's pattern is exactly the prefix test. */
  lemma LikeIsPrefix(ns: string, key: string)
    requires ValidNamespace(ns)
    ensures Like(key, ns + ".%") <==> Owns(ns, key)
  {
    NamespaceChars(ns);
    assert ns + ".%" == (ns + ".") + "%";
    LikeLiteral(key, ns + ".");
  }

  /** The namespaces that prefix the key at one of its first `n` dots, longest first. */
  function Candidates(rows: Rows, key: string, n: nat): seq<string>
    requires n <= |key|
  {
    if n == 0 then []
    else if key[n - 1] == '.' && key[..n - 1] in rows then [key[..n - 1]] + Candidates(rows, key, n - 1)
    else Candidates(rows, key, n - 1)
  }

  lemma {:induction false} CandidatesAre(rows: Rows, key: string, n: nat)
    requires n <= |key|
    ensures forall ns :: ns in Candidates(rows, key, n) <==> ns in rows && Owns(ns, key) && |ns| < n
    ensures LongestFirst(Candidates(rows, key, n))
  {
    if n > 0 {
      CandidatesAre(rows, key, n - 1);
      forall ns | ns in rows && Owns(ns, key) && |ns| == n - 1 ensures key[n - 1] == '.' && ns == key[..n - 1] {}
    }
  }

  predicate LongestFirst(s: seq<string>) {
    forall i, j :: 0 <= i < j < |s| ==> |s[i]| > |s[j]|
  }

  /** Any answer to the query: the prefixing rows once each, sorted by length, ties in any order. */
  predicate IsQueryAnswer(rows: Rows, key: string, answer: seq<string>) {
    && (forall ns :: ns in answer ==> ns in rows)
    && (forall ns :: ns in rows && Owns(ns, key) ==> ns in answer)
    && (forall i :: 0 <= i < |answer| ==> Owns(answer[i], key))
    && (forall i, j :: 0 <= i < j < |answer| ==> answer[i] != answer[j] && |answer[i]| >= |answer[j]|)
  }

  lemma {:induction false} SameStrictOrder(a: seq<string>, b: seq<string>)
    requires LongestFirst(a) && LongestFirst(b)
    requires forall x :: x in a <==> x in b
    ensures a == b
  {
    assert b != [] ==> b[0] in b;
    if a != [] {
      assert a[0] in b;
      assert b[0] in a;
      assert a[0] == b[0];
      assert forall x :: x in a[1..] <==> x in b[1..] by {
        forall x ensures x in a[1..] <==> x in b[1..] {
          if x in a[1..] { var i :| 1 <= i < |a| && a[i] == x; assert x in b && x != b[0]; }
          if x in b[1..] { var i :| 1 <= i < |b| && b[i] == x; assert x in a && x != a[0]; }
        }
      }
      SameStrictOrder(a[1..], b[1..]);
    }
  }

  /** Namespaces that prefix the same key never tie in length, so the order of the rows in the
      table cannot matter: the query has exactly one answer. */
  lemma QueryAnswerIsUnique(rows: Rows, key: string, answer: seq<string>)
    ensures IsQueryAnswer(rows, key, answer) <==> answer == Candidates(rows, key, |key|)
  {
    CandidatesAre(rows, key, |key|);
    var c := Candidates(rows, key, |key|);
    if IsQueryAnswer(rows, key, answer) {
      AnswersNeverTie(rows, key, answer);
      forall ns | ns in answer ensures ns in c { var i :| 0 <= i < |answer| && answer[i] == ns; }
      SameStrictOrder(answer, c);
    }
    if answer == c {
      forall i | 0 <= i < |answer| ensures Owns(answer[i], key) { assert answer[i] in c; }
    }
  }

  lemma AnswersNeverTie(rows: Rows, key: string, answer: seq<string>)
    requires IsQueryAnswer(rows, key, answer)
    ensures LongestFirst(answer)
  {
    forall i, j | 0 <= i < j < |answer| ensures |answer[i]| > |answer[j]| {
      assert Owns(answer[i], key) && Owns(answer[j], key);
      assert answer[i] == key[..|answer[i]|] && answer[j] == key[..|answer[j]|];
    }
  }

  // ---- resolution -------------------------------------------------------------------

  predicate Accepts(rows: Rows, ns: string, key: string) {
    ns in rows && Matches(ns, rows[ns].template, key)
  }

  function FirstAccepting(rows: Rows, candidates: seq<string>, key: string): Option<string> {
    if candidates == [] then None
    else if Accepts(rows, candidates[0], key) then Some(candidates[0])
    else FirstAccepting(rows, candidates[1..], key)
  }

  function Resolve(rows: Rows, key: string): Option<string> {
    FirstAccepting(rows, Candidates(rows, key, |key|), key)
  }

  /** The key is a parameter of the candidate query. */
  function ValidateKey(rows: Rows, key: string): Outcome<string> {
    match RequireText(key)
    case Err(e) => Refused(e)
    case Ok(text) =>
      if !Storable(text) then Crashed
      else match Resolve(rows, text) case None => Refused(KeyRule) case Some(ns) => Done(ns)
  }

  method ValidateFactKey(session: Session, key: string) returns (r: Outcome<string>)
    requires NamespacesOk(session.db.namespaces)
    ensures r == ValidateKey(session.db.namespaces, key)
  {
    var text := RequireText(key);
    if text.Err? { return Refused(text.error); }
    if !Storable(text.value) { return Crashed; }
    var rows, factKey := session.db.namespaces, text.value;
    var candidates := Candidates(rows, factKey, |factKey|);
    CandidatesAre(rows, factKey, |factKey|);
    for i := 0 to |candidates|
      invariant Resolve(rows, factKey) == FirstAccepting(rows, candidates[i..], factKey)
    {
      var ns := candidates[i];
      assert ns in candidates;
      NamespaceChars(ns);
      assert HasPrefix(ns, rows[ns].template);
      var matches := KeyMatches(ns, rows[ns].template, factKey);
      assert candidates[i..][1..] == candidates[i + 1..];
      if matches == Ok(true) { return Done(ns); }
    }
    r := Refused(KeyRule);
  }

  lemma {:induction false} FirstAcceptingIs(rows: Rows, candidates: seq<string>, key: string)
    requires LongestFirst(candidates)
    ensures match FirstAccepting(rows, candidates, key)
            case None => forall ns :: ns in candidates ==> !Accepts(rows, ns, key)
            case Some(w) =>
              && w in candidates && Accepts(rows, w, key)
              && forall ns :: ns in candidates && Accepts(rows, ns, key) ==> |ns| <= |w|
  {
    if candidates != [] {
      FirstAcceptingIs(rows, candidates[1..], key);
      assert candidates == [candidates[0]] + candidates[1..];
      forall ns | ns in candidates[1..] ensures |ns| <= |candidates[0]| {}
    }
  }

  ghost predicate IsLongestAccepting(rows: Rows, ns: string, key: string) {
    Accepts(rows, ns, key) && forall m :: m in rows && Accepts(rows, m, key) && m != ns ==> |m| < |ns|
  }

  /** The winner is the one strictly longest namespace whose template accepts the key. */
  lemma ResolveIsLongest(rows: Rows, key: string, ns: string)
    ensures Resolve(rows, key) == Some(ns) <==> IsLongestAccepting(rows, ns, key)
    ensures Resolve(rows, key) == None <==> forall m :: m in rows ==> !Accepts(rows, m, key)
  {
    var c := Candidates(rows, key, |key|);
    CandidatesAre(rows, key, |key|);
    FirstAcceptingIs(rows, c, key);
    forall m | Accepts(rows, m, key) ensures m in c && key[..|m|] == m {
      assert Owns(m, key);
    }
  }

  lemma {:induction false} JoinEnd(parts: seq<string>)
    requires |parts| > 0 && forall i :: 0 <= i < |parts| ==> ValidSegment(parts[i])
    ensures Join(parts, '.') != "" && !IsSpace(Join(parts, '.')[|Join(parts, '.')| - 1])
  {
    SegmentChars(parts[0]);
    if |parts| > 1 { JoinEnd(parts[1..]); }
  }

  lemma BuiltKeyIsTrimmed(fold: string -> string, ns: string, template: string, parts: map<string, string>)
    requires ValidNamespace(ns) && Build(fold, ns, template, parts).Ok?
    ensures Trimmed(Build(fold, ns, template, parts).value) && Build(fold, ns, template, parts).value != ""
  {
    var out := Filled(fold, Tail(ns, template), parts);
    FilledMatches(fold, Tail(ns, template), parts);
    JoinEnd(out);
    NamespaceChars(ns);
  }

  lemma BuiltKeyIsAccepted(fold: string -> string, rows: Rows, ns: string, parts: map<string, string>)
    requires ns in rows && Build(fold, ns, rows[ns].template, parts).Ok?
    ensures Accepts(rows, ns, Build(fold, ns, rows[ns].template, parts).value)
  {
    BuiltKeyMatches(fold, ns, rows[ns].template, parts);
  }

  lemma AcceptedKeyResolves(rows: Rows, ns: string, key: string)
    requires Accepts(rows, ns, key)
    ensures Resolve(rows, key).Some? && |ns| <= |Resolve(rows, key).value|
  {
    ResolveIsLongest(rows, key, ns);
    if Resolve(rows, key).Some? { ResolveIsLongest(rows, key, Resolve(rows, key).value); }
  }

  /** A key that a template accepts consists of namespace characters. */
  lemma AcceptedKeyIsStorable(ns: string, template: string, key: string)
    requires ValidNamespace(ns) && Matches(ns, template, key)
    ensures Storable(key)
  {
    NamespaceChars(ns);
    KeyFromTail(ns, key);
    var parts, tail := KeyTail(ns, key), Tail(ns, template);
    forall i | 0 <= i < |parts| ensures ValidSegment(parts[i]) {
      SplitParts(key[|ns| + 1..], '.');
      SlotSegment(tail[i]);
    }
    JoinChars(parts);
  }

  lemma SlotSegment(seg: string)
    ensures ValidSegment(seg) ==> !IsSlot(seg)
  {
    if ValidSegment(seg) { SegmentHasNoDot(seg); }
  }

  /** A key built from a stored namespace is never refused, and its owner is at least as long. */
  lemma BuiltKeyResolves(fold: string -> string, rows: Rows, ns: string, parts: map<string, string>, key: string)
    requires NamespacesOk(rows) && ns in rows
    requires Build(fold, ns, rows[ns].template, parts) == Ok(key)
    ensures ValidateKey(rows, key).Done? && |ns| <= |ValidateKey(rows, key).value|
  {
    BuiltKeyIsAccepted(fold, rows, ns, parts);
    AcceptedKeyResolves(rows, ns, key);
    BuiltKeyIsTrimmed(fold, ns, rows[ns].template, parts);
    AcceptedKeyIsStorable(ns, rows[ns].template, key);
    StripTrimmed(key);
  }

  // ---- upsert -----------------------------------------------------------------------

  datatype NamespaceArgs = NamespaceArgs(namespace: string, template: string, summary: string, defaultKind: string)

  /** Some fact is stored under the namespace. */
  predicate InUse(facts: map<string, FactRow>, ns: string) {
    exists key :: key in facts && facts[key].namespace == ns
  }

  function NamespaceName(s: string): Result<string, Refusal> {
    match RequireText(s)
    case Err(e) => Err(e)
    case Ok(text) => if ValidNamespace(Lower(text)) then Ok(Lower(text)) else Err(KeyRule)
  }

  function TemplateRefusal(e: KeyError): Refusal {
    if e.BlankTemplate? then Invalid else KeyRule
  }

  /** The refusals that come before the row is touched, or the name and kind to store. */
  function CheckNamespace(s: Store, args: NamespaceArgs): Result<(string, Kind), Refusal> {
    match NamespaceName(args.namespace)
    case Err(e) => Err(e)
    case Ok(name) =>
      match Parse(name, args.template)
      case Err(e) => Err(TemplateRefusal(e))
      case Ok(_) =>
        match ParseKind(args.defaultKind)
        case None => Err(Invalid)
        case Some(kind) =>
          if name in s.namespaces && s.namespaces[name].template != Strip(args.template) && InUse(s.tables.facts, name)
          then Err(KeyRule)
          else Ok((name, kind))
  }

  /** The columns take the row. */
  predicate NamespaceFits(name: string, template: string, summary: string) {
    |name| <= NAMESPACE_WIDTH && |template| <= TEMPLATE_WIDTH && Storable(summary)
  }

  function UpsertSpec(s: Store, args: NamespaceArgs): (Outcome<string>, Store) {
    match CheckNamespace(s, args)
    case Err(e) => (Refused(e), s)
    case Ok((name, kind)) =>
      match RequireText(args.summary)
      case Err(e) => (Refused(e), s)
      case Ok(summary) =>
        if !NamespaceFits(name, Strip(args.template), summary) then (Crashed, s)
        else (Done(name), s.(namespaces := s.namespaces[name := Namespace(Strip(args.template), kind, summary)]))
  }

  /** The summary is checked after the row has its new template, so a refusal can leave the
      session changed; the caller rolls back. */
  method UpsertNamespace(session: Session, args: NamespaceArgs) returns (r: Outcome<string>)
    modifies session
    ensures r == UpsertSpec(old(session.db), args).0
    ensures r.Done? ==> session.db == UpsertSpec(old(session.db), args).1
  {
    var checked := CheckNamespace(session.db, args);
    if checked.Err? { return Refused(checked.error); }
    var (name, kind) := checked.value;
    var row := if name in session.db.namespaces then session.db.namespaces[name] else Namespace("", kind, "");
    row := row.(template := Strip(args.template));
    session.db := session.db.(namespaces := session.db.namespaces[name := row]);
    var summary := RequireText(args.summary);
    if summary.Err? { return Refused(summary.error); }
    row := row.(summary := summary.value, defaultKind := kind);
    if !NamespaceFits(name, row.template, row.summary) { return Crashed; }
    session.db := session.db.(namespaces := session.db.namespaces[name := row]);
    assert session.db.namespaces == old(session.db.namespaces)[name := row];
    r := Done(name);
  }

  lemma StrippedTemplate(ns: string, template: string)
    requires TemplateOk(ns, template)
    ensures Trimmed(Strip(template)) && TemplateOk(ns, Strip(template))
  {
    StripIsTrimmed(template);
    StripTrimmed(Strip(template));
  }

  lemma RowsWith(rows: Rows, name: string, row: Namespace)
    requires NamespacesOk(rows)
    requires NamespaceOk(name, row)
    ensures NamespacesOk(rows[name := row])
  {
  }

  lemma CheckedNamespace(s: Store, args: NamespaceArgs)
    requires CheckNamespace(s, args).Ok?
    ensures var name := CheckNamespace(s, args).value.0;
            && ValidNamespace(name) && TemplateOk(name, Strip(args.template)) && Trimmed(Strip(args.template))
            && (name in s.namespaces && InUse(s.tables.facts, name) ==> s.namespaces[name].template == Strip(args.template))
  {
    StrippedTemplate(CheckNamespace(s, args).value.0, args.template);
  }

  /** An upsert that completes puts one row that fits. */
  lemma UpsertPuts(s: Store, args: NamespaceArgs)
    requires UpsertSpec(s, args).0.Done?
    ensures CheckNamespace(s, args).Ok?
    ensures var name, u := CheckNamespace(s, args).value.0, UpsertSpec(s, args).1.namespaces;
            && name in u && u == s.namespaces[name := u[name]]
            && u[name].template == Strip(args.template)
            && |name| <= NAMESPACE_WIDTH && |u[name].template| <= TEMPLATE_WIDTH
  {
  }

  lemma RefusedUpsert(s: Store, args: NamespaceArgs)
    requires !UpsertSpec(s, args).0.Done?
    ensures UpsertSpec(s, args).1 == s
  {
  }

  /** Upserts keep the table well formed, remove nothing, and never change a template that facts
      use. */
  lemma UpsertKeeps(s: Store, args: NamespaceArgs)
    requires NamespacesOk(s.namespaces)
    ensures NamespacesOk(UpsertSpec(s, args).1.namespaces)
    ensures forall ns :: ns in s.namespaces ==> ns in UpsertSpec(s, args).1.namespaces
    ensures forall ns :: ns in s.namespaces && InUse(s.tables.facts, ns) ==>
              UpsertSpec(s, args).1.namespaces[ns].template == s.namespaces[ns].template
  {
    if UpsertSpec(s, args).0.Done? {
      UpsertPuts(s, args);
      CheckedNamespace(s, args);
      var name := CheckNamespace(s, args).value.0;
      RowsWith(s.namespaces, name, UpsertSpec(s, args).1.namespaces[name]);
    } else {
      RefusedUpsert(s, args);
    }
  }

  lemma UpsertOnlyNamespaces(s: Store, args: NamespaceArgs)
    ensures UpsertSpec(s, args).1 == s.(namespaces := UpsertSpec(s, args).1.namespaces)
  {
  }

  // ---- what the services answer -----------------------------------------------------

  /** A key is resolved to the longest namespace that accepts it; a blank one is refused, one that no
      namespace accepts breaks the key rule, and one that no query takes fails. */
  lemma ValidateKeyIs(rows: Rows, key: string, ns: string)
    ensures ValidateKey(rows, key) == Done(ns)
            <==> HasText(key) && Storable(Strip(key)) && IsLongestAccepting(rows, ns, Strip(key))
    ensures ValidateKey(rows, key) == Refused(Invalid) <==> !HasText(key)
    ensures ValidateKey(rows, key) == Refused(KeyRule)
            <==> HasText(key) && Storable(Strip(key)) && forall m :: m in rows ==> !Accepts(rows, m, Strip(key))
    ensures ValidateKey(rows, key).Crashed? <==> HasText(key) && !Storable(Strip(key))
  {
    BlankIff(key);
    ResolveIsLongest(rows, Strip(key), ns);
  }

  /** The template may be stored: it is one of this namespace, and no fact uses another. */
  predicate TemplateTakes(s: Store, name: string, template: string) {
    && TemplateOk(name, template)
    && (name in s.namespaces && InUse(s.tables.facts, name) ==> s.namespaces[name].template == Strip(template))
  }

  lemma KindOf(name: string)
    ensures ParseKind(name).Some? <==> exists k: Kind :: name == KindName(k)
    ensures ParseKind(name).Some? ==> KindName(ParseKind(name).value) == name
  {
    if k: Kind :| name == KindName(k) { ParseKindIff(name, k); }
    if ParseKind(name).Some? { ParseKindIff(name, ParseKind(name).value); }
  }

  lemma CheckNamespaceIff(s: Store, args: NamespaceArgs, name: string)
    ensures CheckNamespace(s, args).Ok? && CheckNamespace(s, args).value.0 == name
            <==>
            && HasText(args.namespace) && name == Lower(Strip(args.namespace)) && ValidNamespace(name)
            && TemplateTakes(s, name, args.template) && exists k: Kind :: args.defaultKind == KindName(k)
    ensures CheckNamespace(s, args).Ok? ==> KindName(CheckNamespace(s, args).value.1) == args.defaultKind
  {
    BlankIff(args.namespace);
    KindOf(args.defaultKind);
  }

  /** A namespace is stored exactly when its name is dotted segments, its template is one and no fact uses
      another, its kind is known, its summary is no blank, and the columns take it all. The row has the
      stripped template and summary, and nothing else changes. */
  lemma UpsertIs(s: Store, args: NamespaceArgs, name: string)
    ensures var (answer, u) := UpsertSpec(s, args);
            && (answer == Done(name)
                <==>
                && HasText(args.namespace) && name == Lower(Strip(args.namespace)) && ValidNamespace(name)
                && TemplateTakes(s, name, args.template) && (exists k: Kind :: args.defaultKind == KindName(k))
                && HasText(args.summary)
                && |name| <= 256 && |Strip(args.template)| <= 512 && Storable(Strip(args.summary)))
            && (answer == Done(name) ==>
                  && name in u.namespaces && u == s.(namespaces := s.namespaces[name := u.namespaces[name]])
                  && u.namespaces[name].template == Strip(args.template) && u.namespaces[name].summary == Strip(args.summary)
                  && KindName(u.namespaces[name].defaultKind) == args.defaultKind)
            && (!answer.Done? ==> u == s)
  {
    BlankIff(args.summary);
    CheckNamespaceIff(s, args, name);
  }

  /** The refusals of an upsert, in order: a blank name, a name that is no dotted segments, a blank
      template, one that is none of this namespace, an unknown kind, a template that facts use, a blank
      summary. */
  lemma UpsertRefusals(s: Store, args: NamespaceArgs)
    ensures var answer, name := UpsertSpec(s, args).0, Lower(Strip(args.namespace));
            if !HasText(args.namespace) then answer == Refused(Invalid)
            else if !ValidNamespace(name) then answer == Refused(KeyRule)
            else if !HasText(args.template) then answer == Refused(Invalid)
            else if !TemplateOk(name, args.template) then answer == Refused(KeyRule)
            else if !exists k: Kind :: args.defaultKind == KindName(k) then answer == Refused(Invalid)
            else if !TemplateTakes(s, name, args.template) then answer == Refused(KeyRule)
            else if !HasText(args.summary) then answer == Refused(Invalid)
            else !answer.Refused?
  {
    BlankIff(args.summary);
    KindOf(args.defaultKind);
    BlankIff(args.namespace);
    BlankIff(args.template);
  }
}
