/** When the key that a namespace and parts build stays the same for good. */
module KeyStability {
  import opened Wrappers
  import opened Text
  import opened Slugs
  import opened KeyTemplates
  import opened Namespaces
  import opened Database
  import opened Facts
  import opened SerialWrites
  import opened FactWrites
  import opened BatchLaws
  import opened Service

  const NOTHING_YET := Store(map[], NOTHING, map[], 0, {}, map[], map[])

  /** In every reachable state each fact's key matches the current template of the namespace that it
      is stored under. */
  lemma KeysMatchTheirTemplates(cfg: Config, steps: seq<Step>, key: string)
    requires key in Run(cfg, NOTHING_YET, steps).tables.facts
    ensures var u := Run(cfg, NOTHING_YET, steps);
            var ns := u.tables.facts[key].namespace;
            ns in u.namespaces && Matches(ns, u.namespaces[ns].template, key)
  {
    RunKeepsStore(cfg, NOTHING_YET, steps);
  }

  /** The namespace builds this key from these parts. */
  predicate BuildsKey(cfg: Config, s: Store, ns: string, parts: map<string, string>, key: string) {
    ns in s.namespaces && Build(cfg.fold, ns, s.namespaces[ns].template, parts) == Ok(key)
  }

  /** It does so in every later state. */
  ghost predicate AlwaysBuilds(cfg: Config, s: Store, ns: string, parts: map<string, string>, key: string) {
    forall steps :: BuildsKey(cfg, Run(cfg, s, steps), ns, parts, key)
  }

  // ---- a namespace in use -----------------------------------------------------------

  lemma UsedNamespaceKeepsItsKeys(cfg: Config, s: Store, ns: string, parts: map<string, string>, key: string, steps: seq<Step>)
    requires StoreOk(s) && InUse(s.tables.facts, ns) && BuildsKey(cfg, s, ns, parts, key)
    ensures BuildsKey(cfg, Run(cfg, s, steps), ns, parts, key)
  {
    RunKeepsStore(cfg, s, steps);
  }

  /** A request that names the namespace and these parts. */
  predicate Names(req: WriteRequest, ns: string, parts: map<string, string>) {
    Given(req.factKey).None? && Given(req.namespace).Some? && Lower(Strip(Given(req.namespace).value)) == ns && req.parts == parts
  }

  lemma BuildsKeyIsKeySpec(cfg: Config, s: Store, req: WriteRequest, ns: string, parts: map<string, string>, key: string)
    requires NamespacesOk(s.namespaces) && Names(req, ns, parts)
    ensures KeySpec(cfg, s.namespaces, req) == Done(key) <==> BuildsKey(cfg, s, ns, parts, key)
  {
    if ns in s.namespaces { NameIsStorable(ns); }
  }

  lemma NameIsStorable(ns: string)
    requires ValidNamespace(ns)
    ensures Storable(ns)
  {
    NamespaceChars(ns);
  }

  lemma FactStays(cfg: Config, s: Store, key: string, steps: seq<Step>)
    requires StoreOk(s) && key in s.tables.facts
    ensures key in Run(cfg, s, steps).tables.facts
    ensures Run(cfg, s, steps).tables.facts[key].namespace == s.tables.facts[key].namespace
  {
    RunKeepsStore(cfg, s, steps);
  }

  /** Key stability: once a fact is stored under the namespace it was built from, every later
      request with the same namespace and parts is for that same fact. */
  lemma LaterWriteFindsTheFact(cfg: Config, s: Store, ns: string, parts: map<string, string>, key: string,
                               steps: seq<Step>, req: WriteRequest)
    requires StoreOk(s) && BuildsKey(cfg, s, ns, parts, key)
    requires key in s.tables.facts && s.tables.facts[key].namespace == ns
    requires Names(req, ns, parts)
    ensures KeySpec(cfg, Run(cfg, s, steps).namespaces, req) == Done(key)
    ensures RowOf(Run(cfg, s, steps).tables, key).Some?
    ensures RowOf(Run(cfg, s, steps).tables, key).value.namespace == ns
  {
    UsedNamespaceKeepsItsKeys(cfg, s, ns, parts, key, steps);
    RunKeepsStore(cfg, s, steps);
    BuildsKeyIsKeySpec(cfg, Run(cfg, s, steps), req, ns, parts, key);
    FactStays(cfg, s, key, steps);
  }

  // ---- a namespace that is not in use -----------------------------------------------

  lemma NamespaceIsClean(ns: string)
    requires ValidNamespace(ns)
    ensures RequireText(ns) == Ok(ns) && NamespaceName(ns) == Ok(ns)
  {
    NamespaceChars(ns);
    StripTrimmed(ns);
    assert Lower(ns) == ns;
  }

  /** A template with a different number of segments, and room in its column. */
  function OtherTemplate(ns: string, template: string): string
    requires HasPrefix(ns, template)
  {
    ns + "." + if |Tail(ns, template)| == 1 then "x.{y}" else "{y}"
  }

  lemma OneLetter(c: char)
    requires 'a' <= c <= 'z'
    ensures ValidSegment([c]) && Split([c], '.') == [[c]]
  {
    SplitFirst([c], "", '-');
    SplitFirst([c], "", '.');
  }

  lemma OneLetterSlot(c: char)
    requires 'a' <= c <= 'z'
    ensures IsSlot(['{', c, '}']) && SlotName(['{', c, '}']) == [c] && '.' !in ['{', c, '}']
  {
    assert ['{', c, '}'][1..2] == [c];
  }

  lemma TemplateText(ns: string, rest: string)
    requires ValidNamespace(ns) && rest != "" && !IsSpace(rest[|rest| - 1])
    ensures Strip(ns + "." + rest) == ns + "." + rest && (ns + "." + rest)[|ns| + 1..] == rest
  {
    NamespaceChars(ns);
    var t := ns + "." + rest;
    assert t[0] == ns[0] && t[|t| - 1] == rest[|rest| - 1];
    StripTrimmed(t);
  }

  /** A template put together from its namespace and its tail. */
  lemma TemplateOf(ns: string, rest: string)
    requires ValidNamespace(ns) && rest != "" && !IsSpace(rest[|rest| - 1]) && TailOk(Split(rest, '.'))
    ensures var t := ns + "." + rest; Strip(t) == t && Parse(ns, t).Ok? && Tail(ns, t) == Split(rest, '.')
  {
    TemplateText(ns, rest);
    assert HasPrefix(ns, ns + "." + rest);
  }

  lemma SlotTail()
    ensures Split("{y}", '.') == ["{y}"] && TailOk(["{y}"])
  {
    OneLetterSlot('y');
    assert "{y}" == ['{', 'y', '}'];
    SplitFirst("{y}", "", '.');
    assert IsSlot(["{y}"][0]);
  }

  lemma LiteralAndSlotTail()
    ensures Split("x.{y}", '.') == ["x", "{y}"] && TailOk(["x", "{y}"])
  {
    SlotTail();
    OneLetter('x');
    assert "x.{y}" == "x" + ['.'] + "{y}";
    SplitFirst("x", "{y}", '.');
    assert IsSlot(["x", "{y}"][1]);
  }

  lemma OtherTemplateOk(ns: string, template: string)
    requires ValidNamespace(ns) && HasPrefix(ns, template)
    ensures var other := OtherTemplate(ns, template);
            && Strip(other) == other && Parse(ns, other).Ok?
            && |Tail(ns, other)| != |Tail(ns, template)| && |other| <= |ns| + 6
  {
    SlotTail();
    LiteralAndSlotTail();
    if |Tail(ns, template)| == 1 { TemplateOf(ns, "x.{y}"); } else { TemplateOf(ns, "{y}"); }
  }

  /** Templates with different numbers of segments never build the same key. */
  lemma DifferentLengths(fold: string -> string, ns: string, a: string, b: string, parts: map<string, string>, key: string)
    requires Build(fold, ns, a, parts) == Ok(key) && Build(fold, ns, b, parts) == Ok(key)
    ensures |Tail(ns, a)| == |Tail(ns, b)|
  {
    BuiltTail(fold, ns, a, parts);
    BuiltTail(fold, ns, b, parts);
  }

  function Retemplate(ns: string, template: string): Step {
    PutNamespace(NamespaceArgs(ns, template, "summary", "fact"))
  }

  lemma FreeUpsert(s: Store, ns: string, template: string)
    requires ns in s.namespaces && ValidNamespace(ns) && !InUse(s.tables.facts, ns)
    requires Parse(ns, template).Ok? && Strip(template) == template
    requires |ns| <= NAMESPACE_WIDTH && |template| <= TEMPLATE_WIDTH
    ensures UpsertSpec(s, NamespaceArgs(ns, template, "summary", "fact"))
            == (Done(ns), s.(namespaces := s.namespaces[ns := Namespace(template, Fact, "summary")]))
  {
    NamespaceIsClean(ns);
    assert RequireText("summary") == Ok("summary") by { StripTrimmed("summary"); }
    assert ParseKind("fact") == Some(Fact);
  }

  lemma FreeTemplateChanges(cfg: Config, s: Store, ns: string, template: string)
    requires ns in s.namespaces && ValidNamespace(ns) && !InUse(s.tables.facts, ns)
    requires Parse(ns, template).Ok? && Strip(template) == template
    requires |ns| <= NAMESPACE_WIDTH && |template| <= TEMPLATE_WIDTH
    ensures var u := Next(cfg, s, Retemplate(ns, template)); ns in u.namespaces && u.namespaces[ns].template == template
  {
    FreeUpsert(s, ns, template);
    NextOfPut(cfg, s, NamespaceArgs(ns, template, "summary", "fact"));
  }

  lemma NextOfPut(cfg: Config, s: Store, args: NamespaceArgs)
    ensures Next(cfg, s, PutNamespace(args)) == UpsertSpec(s, args).1
  {
  }

  lemma RunOfOne(cfg: Config, s: Store, step: Step)
    ensures Run(cfg, s, [step]) == Next(cfg, s, step)
  {
    assert [step][..0] == [];
    assert Run(cfg, s, []) == s;
  }

  lemma FreeNamespaceLosesItsKeys(cfg: Config, s: Store, ns: string, parts: map<string, string>, key: string)
    requires StoreOk(s) && !InUse(s.tables.facts, ns) && BuildsKey(cfg, s, ns, parts, key)
    ensures !AlwaysBuilds(cfg, s, ns, parts, key)
  {
    var template := s.namespaces[ns].template;
    var other := OtherTemplate(ns, template);
    OtherTemplateOk(ns, template);
    FreeTemplateChanges(cfg, s, ns, other);
    RunOfOne(cfg, s, Retemplate(ns, other));
    var u := Run(cfg, s, [Retemplate(ns, other)]);
    if BuildsKey(cfg, u, ns, parts, key) {
      DifferentLengths(cfg.fold, ns, template, other, parts, key);
      assert false;
    }
  }

  /** A namespace builds the same key from the same parts in every later state exactly when some
      fact is stored under it. */
  lemma StableIffInUse(cfg: Config, s: Store, ns: string, parts: map<string, string>, key: string)
    requires StoreOk(s) && BuildsKey(cfg, s, ns, parts, key)
    ensures AlwaysBuilds(cfg, s, ns, parts, key) <==> InUse(s.tables.facts, ns)
  {
    if InUse(s.tables.facts, ns) {
      forall steps ensures BuildsKey(cfg, Run(cfg, s, steps), ns, parts, key) {
        UsedNamespaceKeepsItsKeys(cfg, s, ns, parts, key, steps);
      }
    } else {
      FreeNamespaceLosesItsKeys(cfg, s, ns, parts, key);
    }
  }

  // ---- the namespace a fact was created from ----------------------------------------

  /** The write created a fact. */
  predicate Creates(cfg: Config, s: Store, req: WriteRequest, now: nat, txnNow: nat) {
    var r := WriteSpec(cfg, s, req, now, txnNow).0;
    r.Done? && r.value.Wrote? && r.value.change == Create
  }

  lemma CreatedRow(cfg: Config, s: Store, p: Prepared, now: nat, txnNow: nat)
    requires WritePrepared(cfg, s, p, now, txnNow).0.Done? && WritePrepared(cfg, s, p, now, txnNow).0.value.Wrote?
    requires p.change == Create
    ensures p.key !in s.tables.facts
    ensures WritePrepared(cfg, s, p, now, txnNow).1.tables.facts == s.tables.facts[p.key := StoredRow(p, None, now)]
    ensures WritePrepared(cfg, s, p, now, txnNow).1.namespaces == s.namespaces
  {
    AtomicWriteIsSerialStep(cfg, s, p, now, txnNow);
    AddedByCreate(cfg, s.tables, Op(p, now, s.sources));
    PreparedKeepsNamespaces(cfg, s, p, now, txnNow);
  }

  lemma AddedByCreate(cfg: Config, t: Tables, op: Op)
    requires IsWrite(SerialReply(cfg, t, op)) && op.p.change == Create
    ensures op.p.key !in t.facts
    ensures WithRows(t, Added(cfg, t, op)).facts == t.facts[op.p.key := StoredRow(op.p, None, op.now)]
  {
  }

  lemma CreatedIsPrepared(cfg: Config, s: Store, req: WriteRequest, now: nat, txnNow: nat)
    requires Creates(cfg, s, req, now, txnNow)
    ensures Prepare(cfg, s.namespaces, req).Done? && Prepare(cfg, s.namespaces, req).value.change == Create
    ensures WriteSpec(cfg, s, req, now, txnNow) == WritePrepared(cfg, s, Prepare(cfg, s.namespaces, req).value, now, txnNow)
  {
    var p := Prepare(cfg, s.namespaces, req).value;
    assert WritePrepared(cfg, s, p, now, txnNow).0.value.change == p.change;
  }

  lemma UsesAfterInsert(facts: map<string, FactRow>, key: string, row: FactRow, ns: string)
    requires key !in facts
    ensures InUse(facts[key := row], ns) <==> InUse(facts, ns) || row.namespace == ns
  {
    if InUse(facts, ns) {
      var k :| k in facts && facts[k].namespace == ns;
      assert k in facts[key := row];
    }
    assert key in facts[key := row];
  }

  /** The created fact is stored under the longest namespace that accepts its key. */
  lemma CreatedUnderOwner(cfg: Config, s: Store, req: WriteRequest, now: nat, txnNow: nat, ns: string, parts: map<string, string>, key: string)
    requires StoreOk(s) && Names(req, ns, parts) && BuildsKey(cfg, s, ns, parts, key) && Creates(cfg, s, req, now, txnNow)
    ensures var u := WriteSpec(cfg, s, req, now, txnNow).1;
            && key in u.tables.facts && Some(u.tables.facts[key].namespace) == Resolve(s.namespaces, key)
            && u.namespaces == s.namespaces
            && (InUse(u.tables.facts, ns) <==> InUse(s.tables.facts, ns) || Resolve(s.namespaces, key) == Some(ns))
  {
    CreatedIsPrepared(cfg, s, req, now, txnNow);
    PreparedIsAccepted(cfg, s.namespaces, req);
    BuildsKeyIsKeySpec(cfg, s, req, ns, parts, key);
    var p := Prepare(cfg, s.namespaces, req).value;
    CreatedRow(cfg, s, p, now, txnNow);
    UsesAfterInsert(s.tables.facts, key, StoredRow(p, None, now), ns);
  }

  /** After a create from a namespace and parts, the same namespace and parts give the same key for
      good exactly when the namespace itself owns the key, or held a fact before. */
  lemma CreatedKeyIsStableIff(cfg: Config, s: Store, req: WriteRequest, now: nat, txnNow: nat, ns: string,
                              parts: map<string, string>, key: string)
    requires StoreOk(s) && Names(req, ns, parts) && BuildsKey(cfg, s, ns, parts, key) && Creates(cfg, s, req, now, txnNow)
    ensures AlwaysBuilds(cfg, Next(cfg, s, Write(req, now, txnNow)), ns, parts, key)
            <==> Resolve(s.namespaces, key) == Some(ns) || InUse(s.tables.facts, ns)
  {
    var u := Next(cfg, s, Write(req, now, txnNow));
    StepKeepsStore(cfg, s, Write(req, now, txnNow));
    CreatedUnderOwner(cfg, s, req, now, txnNow, ns, parts, key);
    StableIffInUse(cfg, u, ns, parts, key);
  }

  const SMALL_ROWS: Rows := map["a" := Namespace("a.{x}.{y}", Fact, "s"), "a.b" := Namespace("a.b.{z}", Fact, "s")]

  lemma OneSlotTemplate()
    ensures ValidNamespace("a.b") && TemplateOk("a.b", "a.b.{z}") && Trimmed("a.b.{z}")
    ensures Tail("a.b", "a.b.{z}") == ["{z}"]
  {
    OneLetter('a');
    OneLetter('b');
    OneLetterSlot('z');
    SplitFirst("a", "b", '.');
    assert "a" + ['.'] + "b" == "a.b";
    StripTrimmed("a.b.{z}");
    assert "a.b.{z}"[4..] == "{z}" == ['{', 'z', '}'];
    SplitFirst("{z}", "", '.');
    assert IsSlot(Tail("a.b", "a.b.{z}")[0]);
  }

  lemma TwoSlotTemplate()
    ensures ValidNamespace("a") && TemplateOk("a", "a.{x}.{y}") && Trimmed("a.{x}.{y}")
    ensures Tail("a", "a.{x}.{y}") == ["{x}", "{y}"]
  {
    OneLetter('a');
    OneLetterSlot('x');
    OneLetterSlot('y');
    StripTrimmed("a.{x}.{y}");
    assert "a.{x}.{y}"[2..] == "{x}" + ['.'] + "{y}";
    assert "{x}" == ['{', 'x', '}'] && "{y}" == ['{', 'y', '}'];
    SplitFirst("{x}", "{y}", '.');
    SplitFirst("{y}", "", '.');
    assert IsSlot(Tail("a", "a.{x}.{y}")[0]);
  }

  lemma TwoSlotsFilled(fold: string -> string, tail: seq<string>, parts: map<string, string>)
    requires KeepsAscii(fold) && tail == ["{x}", "{y}"] && parts == map["x" := "b", "y" := "c"]
    ensures Filled(fold, tail, parts) == ["b", "c"] && Missing(fold, tail, parts) == []
  {
    OneLetter('b');
    OneLetter('c');
    OneLetterSlot('x');
    OneLetterSlot('y');
    assert tail[0] == ['{', 'x', '}'] && tail[1] == ['{', 'y', '}'];
    SlugOfSegment(fold, "b");
    SlugOfSegment(fold, "c");
    MissingNone(fold, tail, parts, 2);
  }

  lemma TwoJoined()
    ensures "a" + "." + Join(["b", "c"], '.') == "a.b.c"
  {
    JoinCons("b", ["c"], '.');
    assert ["b"] + ["c"] == ["b", "c"];
    assert Join(["c"], '.') == "c";
  }

  lemma SmallKeyIsBuilt(fold: string -> string)
    requires KeepsAscii(fold)
    ensures Build(fold, "a", "a.{x}.{y}", map["x" := "b", "y" := "c"]) == Ok("a.b.c")
  {
    TwoSlotTemplate();
    TwoSlotsFilled(fold, Tail("a", "a.{x}.{y}"), map["x" := "b", "y" := "c"]);
    TwoJoined();
  }

  lemma SmallKeyIsAccepted(c: char)
    requires 'a' <= c <= 'z'
    ensures Accepts(SMALL_ROWS, "a.b", "a.b." + [c])
  {
    var key := "a.b." + [c];
    OneSlotTemplate();
    OneLetter(c);
    OneLetterSlot('z');
    assert key[4..] == [c];
    assert KeyTail("a.b", key) == [[c]];
    assert "a.b" + "." <= key;
  }

  lemma TwoRowsOk(rows: Rows, a: string, b: string)
    requires rows.Keys == {a, b} && NamespaceOk(a, rows[a]) && NamespaceOk(b, rows[b])
    ensures NamespacesOk(rows)
  {
  }

  lemma SmallRowsOk()
    ensures NamespacesOk(SMALL_ROWS)
  {
    OneSlotTemplate();
    TwoSlotTemplate();
    TwoRowsOk(SMALL_ROWS, "a", "a.b");
  }

  lemma LongerOfTwo(rows: Rows, short: string, long: string, key: string)
    requires rows.Keys == {short, long} && |short| < |long| && Accepts(rows, long, key)
    ensures Resolve(rows, key) == Some(long)
  {
    ResolveIsLongest(rows, key, long);
  }

  /** Two namespaces for which the condition fails: `a.b` takes the key that `a` builds. */
  lemma LongerNamespaceTakesTheKey(fold: string -> string)
    requires KeepsAscii(fold)
    ensures NamespacesOk(SMALL_ROWS)
    ensures Build(fold, "a", SMALL_ROWS["a"].template, map["x" := "b", "y" := "c"]) == Ok("a.b.c")
    ensures Resolve(SMALL_ROWS, "a.b.c") == Some("a.b")
  {
    SmallKeyIsBuilt(fold);
    SmallKeyIsAccepted('c');
    assert "a.b." + ['c'] == "a.b.c";
    SmallRowsOk();
    LongerOfTwo(SMALL_ROWS, "a", "a.b", "a.b.c");
  }
}
