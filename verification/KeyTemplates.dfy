/** Key templates: a printer (`BuildKey`) and a parser (`KeyMatches`) over dotted segments. */
module KeyTemplates {
  import opened Wrappers
  import opened Text
  import opened Slugs

  datatype KeyError = BlankTemplate | BadTemplate | MissingParts(names: seq<string>)

  predicate IsSlotName(s: string) {
    && s != ""
    && (s[0] == '_' || 'a' <= s[0] <= 'z')
    && forall i :: 0 <= i < |s| ==> IsSlotNameChar(s[i])
  }

  predicate IsSlotNameChar(c: char) {
    c == '_' || IsSegmentChar(c)
  }

  /** `{name}` */
  predicate IsSlot(seg: string) {
    |seg| >= 3 && seg[0] == '{' && seg[|seg| - 1] == '}' && IsSlotName(seg[1..|seg| - 1])
  }

  function SlotName(seg: string): string
    requires IsSlot(seg)
  {
    seg[1..|seg| - 1]
  }

  /** A namespace that `validate_namespace_name` accepts. */
  predicate ValidNamespace(ns: string) {
    var segs := Split(ns, '.');
    forall i :: 0 <= i < |segs| ==> ValidSegment(segs[i])
  }

  // ---- parsing a template -----------------------------------------------------------

  predicate HasPrefix(ns: string, template: string) {
    ns + "." <= Strip(template)
  }

  /** The dotted segments after the namespace. */
  function Tail(ns: string, template: string): (tail: seq<string>)
    requires HasPrefix(ns, template)
    ensures |tail| >= 1
  {
    Split(Strip(template)[|ns| + 1..], '.')
  }

  predicate TailOk(tail: seq<string>) {
    && (forall i :: 0 <= i < |tail| ==> IsSlot(tail[i]) || ValidSegment(tail[i]))
    && exists i :: 0 <= i < |tail| && IsSlot(tail[i])
  }

  predicate TemplateOk(ns: string, template: string) {
    HasPrefix(ns, template) && TailOk(Tail(ns, template))
  }

  /** A literal segment is kept, an open slot becomes `None`. */
  function Segments(tail: seq<string>): (segs: seq<Option<string>>) {
    seq(|tail|, i requires 0 <= i < |tail| => if IsSlot(tail[i]) then None else Some(tail[i]))
  }

  function Parse(ns: string, template: string): Result<seq<Option<string>>, KeyError> {
    if Strip(template) == "" then Err(BlankTemplate)
    else if !TemplateOk(ns, template) then Err(BadTemplate)
    else Ok(Segments(Tail(ns, template)))
  }

  method ParseTemplate(ns: string, template: string) returns (r: Result<seq<Option<string>>, KeyError>)
    ensures r == Parse(ns, template)
  {
    var text := Strip(template);
    if text == "" { return Err(BlankTemplate); }
    if !(ns + "." <= text) { return Err(BadTemplate); }
    var tail := Split(text[|ns| + 1..], '.');
    var segments: seq<Option<string>> := [];
    var open := false;
    for i := 0 to |tail|
      invariant |segments| == i
      invariant forall j :: 0 <= j < i ==> IsSlot(tail[j]) || ValidSegment(tail[j])
      invariant forall j :: 0 <= j < i ==> segments[j] == Segments(tail)[j]
      invariant open <==> exists j :: 0 <= j < i && IsSlot(tail[j])
    {
      if IsSlot(tail[i]) {
        segments, open := segments + [None], true;
      } else if ValidSegment(tail[i]) {
        segments := segments + [Some(tail[i])];
      } else {
        return Err(BadTemplate);
      }
    }
    if !open { return Err(BadTemplate); }
    assert segments == Segments(tail);
    r := Ok(segments);
  }

  // ---- slot names -------------------------------------------------------------------

  /** The length of the longest run of slot-name characters at the front. */
  function NameRun(s: string): (n: nat)
    ensures n <= |s|
  {
    if s != "" && IsSlotNameChar(s[0]) then 1 + NameRun(s[1..]) else 0
  }

  /** `re.findall(r"\{([a-z_][a-z0-9_]*)\}", text)`: a left-to-right scan. */
  function SlotNames(s: string): seq<string>
    decreases |s|
  {
    if s == "" then []
    else if s[0] != '{' then SlotNames(s[1..])
    else
      var n := NameRun(s[1..]);
      if n + 1 < |s| && s[n + 1] == '}' && IsSlotName(s[1..n + 1])
      then [s[1..n + 1]] + SlotNames(s[n + 2..])
      else SlotNames(s[1..])
  }

  /** The names in the open slots, in order. */
  function NamesOf(tail: seq<string>): seq<string> {
    if tail == [] then []
    else (if IsSlot(tail[0]) then [SlotName(tail[0])] else []) + NamesOf(tail[1..])
  }

  lemma {:induction false} NoBraceNoSlot(a: string, b: string)
    requires '{' !in a
    ensures SlotNames(a + b) == SlotNames(b)
  {
    if a == "" {
      assert a + b == b;
    } else {
      assert (a + b)[1..] == a[1..] + b;
      NoBraceNoSlot(a[1..], b);
    }
  }

  lemma {:induction false} NameRunOf(name: string, rest: string)
    requires forall i :: 0 <= i < |name| ==> IsSlotNameChar(name[i])
    requires rest != "" && !IsSlotNameChar(rest[0])
    ensures NameRun(name + rest) == |name|
  {
    if name == "" {
      assert name + rest == rest;
    } else {
      assert (name + rest)[1..] == name[1..] + rest;
      NameRunOf(name[1..], rest);
    }
  }

  lemma SlotFirst(seg: string, rest: string)
    requires IsSlot(seg)
    ensures SlotNames(seg + rest) == [SlotName(seg)] + SlotNames(rest)
  {
    var name := SlotName(seg);
    var s := seg + rest;
    assert s[1..] == name + ("}" + rest);
    NameRunOf(name, "}" + rest);
    assert s[1..|name| + 1] == name && s[|name| + 1] == '}';
    assert s[|name| + 2..] == rest;
  }

  lemma SegmentFirst(seg: string, rest: string)
    requires IsSlot(seg) || ValidSegment(seg)
    ensures SlotNames(seg + rest) == (if IsSlot(seg) then [SlotName(seg)] else []) + SlotNames(rest)
  {
    if IsSlot(seg) {
      SlotFirst(seg, rest);
    } else {
      SegmentHasNoDot(seg);
      NoBraceNoSlot(seg, rest);
    }
  }

  lemma {:induction false} SlotNamesOfTail(tail: seq<string>, rest: string)
    requires |tail| > 0
    requires forall i :: 0 <= i < |tail| ==> IsSlot(tail[i]) || ValidSegment(tail[i])
    requires '{' !in rest
    ensures SlotNames(Join(tail, '.') + rest) == NamesOf(tail)
  {
    var last := |tail| == 1;
    var after := if last then rest else "." + Join(tail[1..], '.') + rest;
    assert Join(tail, '.') + rest == tail[0] + after;
    if last {
      NoBraceNoSlot(rest, "");
      assert rest + "" == rest;
    } else {
      SlotNamesOfTail(tail[1..], rest);
      NoBraceNoSlot(".", Join(tail[1..], '.') + rest);
      assert after == "." + (Join(tail[1..], '.') + rest);
    }
    SegmentFirst(tail[0], after);
  }

  lemma {:induction false} NamespaceChars(ns: string)
    requires ValidNamespace(ns)
    ensures ns != "" && '{' !in ns
    ensures forall i :: 0 <= i < |ns| ==> IsSegmentChar(ns[i]) || ns[i] == '-' || ns[i] == '.'
  {
    var segs := Split(ns, '.');
    JoinSplit(ns, '.');
    if ns == "" {
      SegmentChars(segs[0]);
    }
    JoinChars(segs);
  }

  lemma {:induction false} JoinChars(segs: seq<string>)
    requires forall i :: 0 <= i < |segs| ==> ValidSegment(segs[i])
    ensures forall i :: 0 <= i < |Join(segs, '.')| ==>
              IsSegmentChar(Join(segs, '.')[i]) || Join(segs, '.')[i] == '-' || Join(segs, '.')[i] == '.'
  {
    if |segs| > 0 { SegmentChars(segs[0]); }
    if |segs| > 1 { JoinChars(segs[1..]); }
  }

  /** The regex scan over the whole template finds one name per open slot of the parsed
      template, in the same order, so filling the slots never runs out of names. */
  lemma SlotNamesAreTheSlots(ns: string, template: string)
    requires ValidNamespace(ns)
    requires TemplateOk(ns, template)
    ensures SlotNames(template) == NamesOf(Tail(ns, template))
  {
    var text, tail := Strip(template), Tail(ns, template);
    var front, back := StripSplits(template);
    NamespaceChars(ns);
    JoinSplit(text[|ns| + 1..], '.');
    assert text == (ns + ".") + Join(tail, '.');
    assert '{' !in front && '{' !in back;
    assert template == (front + ns + ".") + (Join(tail, '.') + back);
    NoBraceNoSlot(front + ns + ".", Join(tail, '.') + back);
    SlotNamesOfTail(tail, back);
  }

  // ---- the printer ------------------------------------------------------------------

  function PartOf(parts: map<string, string>, name: string): string {
    if name in parts then parts[name] else ""
  }

  function SlugFor(fold: string -> string, parts: map<string, string>, name: string): string {
    Slugify(fold, PartOf(parts, name))
  }

  /** The segments with every slot replaced by the slug of its part. */
  function Filled(fold: string -> string, tail: seq<string>, parts: map<string, string>): (out: seq<string>)
    ensures |out| == |tail|
  {
    seq(|tail|, i requires 0 <= i < |tail| =>
      if IsSlot(tail[i]) then SlugFor(fold, parts, SlotName(tail[i])) else tail[i])
  }

  /** The names of the first `n` segments' slots that are left empty. */
  function MissingIn(fold: string -> string, tail: seq<string>, parts: map<string, string>, n: nat): seq<string>
    requires n <= |tail|
  {
    if n == 0 then []
    else if IsSlot(tail[n - 1]) && SlugFor(fold, parts, SlotName(tail[n - 1])) == ""
    then MissingIn(fold, tail, parts, n - 1) + [SlotName(tail[n - 1])]
    else MissingIn(fold, tail, parts, n - 1)
  }

  function Missing(fold: string -> string, tail: seq<string>, parts: map<string, string>): seq<string> {
    MissingIn(fold, tail, parts, |tail|)
  }

  function Build(fold: string -> string, ns: string, template: string, parts: map<string, string>)
    : Result<string, KeyError>
  {
    match Parse(ns, template)
    case Err(e) => Err(e)
    case Ok(_) =>
      var tail := Tail(ns, template);
      var missing := Missing(fold, tail, parts);
      if missing != [] then Err(MissingParts(missing)) else Ok(ns + "." + Join(Filled(fold, tail, parts), '.'))
  }

  /** How many of the first `n` segments are slots. */
  function SlotCount(tail: seq<string>, n: nat): nat
    requires n <= |tail|
  {
    if n == 0 then 0 else SlotCount(tail, n - 1) + if IsSlot(tail[n - 1]) then 1 else 0
  }

  lemma {:induction false} SlotCountShift(tail: seq<string>, n: nat)
    requires 1 <= n <= |tail|
    ensures SlotCount(tail, n) == SlotCount(tail, 1) + SlotCount(tail[1..], n - 1)
  {
    if n > 1 { SlotCountShift(tail, n - 1); }
  }

  lemma {:induction false} SlotNameIndex(tail: seq<string>, i: nat)
    requires i < |tail| && IsSlot(tail[i])
    ensures SlotCount(tail, i) < |NamesOf(tail)| && NamesOf(tail)[SlotCount(tail, i)] == SlotName(tail[i])
  {
    if i > 0 {
      SlotCountShift(tail, i);
      SlotNameIndex(tail[1..], i - 1);
      assert SlotCount(tail, 1) == if IsSlot(tail[0]) then 1 else 0;
    }
  }

  /** The loop of `build_key`: the segments after the namespace, and the slots left empty. */
  method FillSlots(fold: string -> string, segments: seq<Option<string>>, names: seq<string>,
                   parts: map<string, string>, ghost tail: seq<string>)
    returns (out: seq<string>, missing: seq<string>)
    requires segments == Segments(tail) && names == NamesOf(tail)
    ensures out == Filled(fold, tail, parts)
    ensures missing == Missing(fold, tail, parts)
  {
    out, missing := [], [];
    var used := 0;
    for i := 0 to |segments|
      invariant used == SlotCount(tail, i)
      invariant |out| == i && forall j :: 0 <= j < i ==> out[j] == Filled(fold, tail, parts)[j]
      invariant missing == MissingIn(fold, tail, parts, i)
    {
      if segments[i].Some? {
        out := out + [segments[i].value];
      } else {
        SlotNameIndex(tail, i);
        var slug := SlugFor(fold, parts, names[used]);
        if slug == "" { missing := missing + [names[used]]; }
        out, used := out + [slug], used + 1;
      }
    }
  }

  method BuildKey(fold: string -> string, ns: string, template: string, parts: map<string, string>)
    returns (r: Result<string, KeyError>)
    requires ValidNamespace(ns)
    ensures r == Build(fold, ns, template, parts)
  {
    var parsed := ParseTemplate(ns, template);
    if parsed.Err? { return Err(parsed.error); }
    SlotNamesAreTheSlots(ns, template);
    var out, missing := FillSlots(fold, parsed.value, SlotNames(template), parts, Tail(ns, template));
    if missing != [] { return Err(MissingParts(missing)); }
    JoinCons(ns, out, '.');
    r := Ok(Join([ns] + out, '.'));
  }

  // ---- the parser -------------------------------------------------------------------

  predicate TailMatches(tail: seq<string>, parts: seq<string>) {
    && |parts| == |tail|
    && forall i :: 0 <= i < |tail| ==> if IsSlot(tail[i]) then ValidSegment(parts[i]) else parts[i] == tail[i]
  }

  predicate Owns(ns: string, key: string) {
    ns + "." <= key
  }

  function KeyTail(ns: string, key: string): seq<string>
    requires Owns(ns, key)
  {
    Split(key[|ns| + 1..], '.')
  }

  predicate Matches(ns: string, template: string, key: string) {
    Owns(ns, key) && TemplateOk(ns, template) && TailMatches(Tail(ns, template), KeyTail(ns, key))
  }

  /** `key_matches`; a key under the namespace raises when the template does not parse. */
  method KeyMatches(ns: string, template: string, key: string) returns (r: Result<bool, KeyError>)
    ensures r.Err? <==> Owns(ns, key) && Parse(ns, template).Err?
    ensures r.Ok? ==> (r.value <==> Matches(ns, template, key))
  {
    if !(ns + "." <= key) { return Ok(false); }
    var parsed := ParseTemplate(ns, template);
    if parsed.Err? { return Err(parsed.error); }
    var segments, parts := parsed.value, Split(key[|ns| + 1..], '.');
    ghost var tail := Tail(ns, template);
    if |parts| != |segments| { return Ok(false); }
    for i := 0 to |segments|
      invariant forall j :: 0 <= j < i ==> if IsSlot(tail[j]) then ValidSegment(parts[j]) else parts[j] == tail[j]
    {
      if segments[i].None? {
        if !ValidSegment(parts[i]) { return Ok(false); }
      } else if segments[i].value != parts[i] {
        return Ok(false);
      }
    }
    r := Ok(true);
  }

  // ---- printer against parser -------------------------------------------------------

  lemma {:induction false} MissingNone(fold: string -> string, tail: seq<string>, parts: map<string, string>, n: nat)
    requires n <= |tail|
    ensures MissingIn(fold, tail, parts, n) == []
            <==> forall i :: 0 <= i < n && IsSlot(tail[i]) ==> SlugFor(fold, parts, SlotName(tail[i])) != ""
  {
    if n > 0 { MissingNone(fold, tail, parts, n - 1); }
  }

  /** A key that has the segments `parts` after the namespace. */
  lemma KeyOfParts(ns: string, parts: seq<string>)
    requires |parts| > 0 && forall i :: 0 <= i < |parts| ==> '.' !in parts[i]
    ensures Owns(ns, ns + "." + Join(parts, '.'))
    ensures KeyTail(ns, ns + "." + Join(parts, '.')) == parts
  {
    var key := ns + "." + Join(parts, '.');
    assert key[|ns| + 1..] == Join(parts, '.');
    SplitJoin(parts, '.');
  }

  lemma KeyFromTail(ns: string, key: string)
    requires Owns(ns, key)
    ensures key == ns + "." + Join(KeyTail(ns, key), '.')
  {
    JoinSplit(key[|ns| + 1..], '.');
  }

  lemma FilledMatches(fold: string -> string, tail: seq<string>, parts: map<string, string>)
    requires TailOk(tail)
    requires Missing(fold, tail, parts) == []
    ensures TailMatches(tail, Filled(fold, tail, parts))
    ensures forall i :: 0 <= i < |tail| ==> '.' !in Filled(fold, tail, parts)[i]
  {
    MissingNone(fold, tail, parts, |tail|);
    var out := Filled(fold, tail, parts);
    forall i | 0 <= i < |tail| ensures ValidSegment(out[i]) && '.' !in out[i] {
      if IsSlot(tail[i]) { SlugIsSegment(fold, PartOf(parts, SlotName(tail[i]))); }
      SegmentHasNoDot(out[i]);
    }
  }

  /** What a built key looks like from the reading side. */
  lemma BuiltTail(fold: string -> string, ns: string, template: string, parts: map<string, string>)
    requires Build(fold, ns, template, parts).Ok?
    ensures TemplateOk(ns, template)
    ensures Owns(ns, Build(fold, ns, template, parts).value)
    ensures KeyTail(ns, Build(fold, ns, template, parts).value) == Filled(fold, Tail(ns, template), parts)
  {
    FilledMatches(fold, Tail(ns, template), parts);
    KeyOfParts(ns, Filled(fold, Tail(ns, template), parts));
  }

  /** Every key the printer returns is accepted by the parser for the same template. */
  lemma BuiltKeyMatches(fold: string -> string, ns: string, template: string, parts: map<string, string>)
    requires Build(fold, ns, template, parts).Ok?
    ensures Matches(ns, template, Build(fold, ns, template, parts).value)
  {
    BuiltTail(fold, ns, template, parts);
    FilledMatches(fold, Tail(ns, template), parts);
  }

  /** Two part maps build the same key exactly when their slugs agree on every slot. */
  lemma SameKeyIffSameSlugs(fold: string -> string, ns: string, template: string,
                            p: map<string, string>, q: map<string, string>)
    requires Build(fold, ns, template, p).Ok? && Build(fold, ns, template, q).Ok?
    ensures Build(fold, ns, template, p) == Build(fold, ns, template, q)
            <==> forall name :: name in NamesOf(Tail(ns, template)) ==> SlugFor(fold, p, name) == SlugFor(fold, q, name)
  {
    var tail := Tail(ns, template);
    BuiltTail(fold, ns, template, p);
    BuiltTail(fold, ns, template, q);
    var fp, fq := Filled(fold, tail, p), Filled(fold, tail, q);
    if fp == fq {
      forall name | name in NamesOf(tail) ensures SlugFor(fold, p, name) == SlugFor(fold, q, name) {
        var i := SlotWithName(tail, name);
        assert fp[i] == fq[i];
      }
    }
    if forall name :: name in NamesOf(tail) ==> SlugFor(fold, p, name) == SlugFor(fold, q, name) {
      forall i | 0 <= i < |tail| ensures fp[i] == fq[i] {
        if IsSlot(tail[i]) { NameAtSlot(tail, i); }
      }
      assert fp == fq;
    }
  }

  lemma {:induction false} SlotWithName(tail: seq<string>, name: string) returns (i: nat)
    requires name in NamesOf(tail)
    ensures i < |tail| && IsSlot(tail[i]) && SlotName(tail[i]) == name
  {
    if IsSlot(tail[0]) && SlotName(tail[0]) == name {
      i := 0;
    } else {
      i := SlotWithName(tail[1..], name);
      i := i + 1;
    }
  }

  lemma {:induction false} NameAtSlot(tail: seq<string>, i: nat)
    requires i < |tail| && IsSlot(tail[i])
    ensures SlotName(tail[i]) in NamesOf(tail)
  {
    if i > 0 { NameAtSlot(tail[1..], i - 1); }
  }

  predicate DistinctSlots(tail: seq<string>) {
    forall i, j :: 0 <= i < j < |tail| && IsSlot(tail[i]) && IsSlot(tail[j]) ==> SlotName(tail[i]) != SlotName(tail[j])
  }

  /** The parts that reproduce `out` in the slots of `tail`. */
  function PartsFrom(tail: seq<string>, out: seq<string>): map<string, string>
    requires |tail| == |out|
  {
    if tail == [] then map[]
    else if IsSlot(tail[0]) then PartsFrom(tail[1..], out[1..])[SlotName(tail[0]) := out[0]]
    else PartsFrom(tail[1..], out[1..])
  }

  lemma {:induction false} PartsFromAt(tail: seq<string>, out: seq<string>, i: nat)
    requires |tail| == |out| && i < |tail| && IsSlot(tail[i])
    requires DistinctSlots(tail)
    ensures SlotName(tail[i]) in PartsFrom(tail, out) && PartsFrom(tail, out)[SlotName(tail[i])] == out[i]
  {
    if i > 0 {
      assert DistinctSlots(tail[1..]) by {
        forall a, b | 0 <= a < b < |tail[1..]| && IsSlot(tail[1..][a]) && IsSlot(tail[1..][b])
          ensures SlotName(tail[1..][a]) != SlotName(tail[1..][b])
        {
          assert tail[1..][a] == tail[a + 1] && tail[1..][b] == tail[b + 1];
        }
      }
      PartsFromAt(tail[1..], out[1..], i - 1);
    }
  }

  /** With distinct slot names, every accepted key is built from some parts. */
  lemma AcceptedKeyIsBuilt(fold: string -> string, ns: string, template: string, key: string)
    returns (parts: map<string, string>)
    requires KeepsAscii(fold)
    requires Matches(ns, template, key) && DistinctSlots(Tail(ns, template))
    ensures Build(fold, ns, template, parts) == Ok(key)
  {
    var tail, out := Tail(ns, template), KeyTail(ns, key);
    parts := PartsFrom(tail, out);
    forall i | 0 <= i < |tail| && IsSlot(tail[i])
      ensures SlugFor(fold, parts, SlotName(tail[i])) == out[i] && out[i] != ""
    {
      PartsFromAt(tail, out, i);
      SlugOfSegment(fold, out[i]);
      SegmentChars(out[i]);
    }
    MissingNone(fold, tail, parts, |tail|);
    assert Filled(fold, tail, parts) == out;
    KeyFromTail(ns, key);
  }

  /** `parts` builds `key` under this namespace and template. */
  predicate Builds(fold: string -> string, ns: string, template: string, key: string, parts: map<string, string>) {
    Build(fold, ns, template, parts) == Ok(key)
  }

  ghost predicate EveryAcceptedKeyIsBuilt(fold: string -> string, ns: string, template: string) {
    forall key: string :: Matches(ns, template, key) ==> exists parts :: Builds(fold, ns, template, key, parts)
  }

  /** The printer and the parser have the same keys exactly when no slot name is used twice. */
  lemma PrinterCoversParserIffDistinct(fold: string -> string, ns: string, template: string)
    requires KeepsAscii(fold)
    requires TemplateOk(ns, template)
    ensures EveryAcceptedKeyIsBuilt(fold, ns, template) <==> DistinctSlots(Tail(ns, template))
  {
    var tail := Tail(ns, template);
    if DistinctSlots(tail) {
      forall key: string | Matches(ns, template, key) ensures exists parts :: Builds(fold, ns, template, key, parts) {
        var parts := AcceptedKeyIsBuilt(fold, ns, template, key);
        assert Builds(fold, ns, template, key, parts);
      }
    } else {
      var i, j :| 0 <= i < j < |tail| && IsSlot(tail[i]) && IsSlot(tail[j]) && SlotName(tail[i]) == SlotName(tail[j]);
      RepeatedSlotIsNotBuilt(fold, ns, template, i, j);
    }
  }

  /** A slot name used twice: a key whose two segments differ is accepted, and no parts build it. */
  lemma RepeatedSlotIsNotBuilt(fold: string -> string, ns: string, template: string, i: nat, j: nat)
    requires TemplateOk(ns, template)
    requires i < j < |Tail(ns, template)|
    requires IsSlot(Tail(ns, template)[i]) && IsSlot(Tail(ns, template)[j])
    requires SlotName(Tail(ns, template)[i]) == SlotName(Tail(ns, template)[j])
    ensures !EveryAcceptedKeyIsBuilt(fold, ns, template)
  {
    var tail := Tail(ns, template);
    SegmentChars("a");
    SegmentChars("b");
    var out := seq(|tail|, k requires 0 <= k < |tail| => if !IsSlot(tail[k]) then tail[k] else if k == j then "b" else "a");
    forall k | 0 <= k < |out| ensures ValidSegment(out[k]) && '.' !in out[k] { SegmentHasNoDot(out[k]); }
    KeyOfParts(ns, out);
    var key := ns + "." + Join(out, '.');
    assert Matches(ns, template, key);
    forall parts: map<string, string> ensures !Builds(fold, ns, template, key, parts) {
      assert Filled(fold, tail, parts)[i] == Filled(fold, tail, parts)[j];
      assert out[i] != out[j];
      if Builds(fold, ns, template, key, parts) {
        BuiltTail(fold, ns, template, parts);
        assert false;
      }
    }
  }

  // ---- what a template and a built key are ------------------------------------------

  /** A template is the namespace and dotted segments, each a slot or a literal, one of them a slot. */
  lemma TemplateIff(ns: string, template: string, tail: seq<string>)
    ensures TemplateOk(ns, template) && Tail(ns, template) == tail
            <==>
            && Strip(template) == ns + "." + Join(tail, '.')
            && (forall i :: 0 <= i < |tail| ==> IsSlot(tail[i]) || ValidSegment(tail[i])) && exists i :: 0 <= i < |tail| && IsSlot(tail[i])
    ensures TemplateOk(ns, template) ==> Parse(ns, template) == Ok(Segments(Tail(ns, template)))
  {
    if TailOk(tail) && Strip(template) == ns + "." + Join(tail, '.') {
      forall i | 0 <= i < |tail| ensures '.' !in tail[i] { PieceHasNoDot(tail[i]); }
      KeyOfParts(ns, tail);
    }
    if TemplateOk(ns, template) { JoinSplit(Strip(template)[|ns| + 1..], '.'); }
  }

  lemma PieceHasNoDot(seg: string)
    requires IsSlot(seg) || ValidSegment(seg)
    ensures '.' !in seg
  {
    if IsSlot(seg) {
      forall i | 0 <= i < |seg| ensures seg[i] != '.' { assert 1 <= i < |seg| - 1 ==> seg[i] == SlotName(seg)[i - 1]; }
    } else {
      SegmentHasNoDot(seg);
    }
  }

  /** The lower-cased words of a part. */
  function PartWords(fold: string -> string, parts: map<string, string>, name: string): seq<string> {
    LowerAll(AlnumWords(fold(ReplaceStrokeD(PartOf(parts, name)))))
  }

  /** The segment of a key is the words of its slot's part, or the literal. */
  predicate SegmentIs(fold: string -> string, parts: map<string, string>, seg: string, out: string) {
    if IsSlot(seg) then PartWords(fold, parts, SlotName(seg)) != [] && out == Join(PartWords(fold, parts, SlotName(seg)), '-')
    else out == seg
  }

  /** The segments after the namespace. */
  predicate SegmentsAre(fold: string -> string, parts: map<string, string>, tail: seq<string>, out: seq<string>) {
    |out| == |tail| && forall i :: 0 <= i < |tail| ==> SegmentIs(fold, parts, tail[i], out[i])
  }

  lemma FilledSegments(fold: string -> string, parts: map<string, string>, tail: seq<string>, out: seq<string>)
    ensures SegmentsAre(fold, parts, tail, out) <==> out == Filled(fold, tail, parts) && Missing(fold, tail, parts) == []
  {
    forall i | 0 <= i < |tail| && IsSlot(tail[i])
      ensures SlugFor(fold, parts, SlotName(tail[i])) == Join(PartWords(fold, parts, SlotName(tail[i])), '-')
      ensures SlugFor(fold, parts, SlotName(tail[i])) == "" <==> PartWords(fold, parts, SlotName(tail[i])) == []
    {
      SlugIsWords(fold, PartOf(parts, SlotName(tail[i])));
    }
    MissingNone(fold, tail, parts, |tail|);
    if SegmentsAre(fold, parts, tail, out) { assert out == Filled(fold, tail, parts); }
  }

  /** The one key that can be built: literals as they are, and each slot the words of its part joined
      by dashes. It is built exactly when the template is one and every slot's part has a word. */
  lemma BuiltKeyIs(fold: string -> string, ns: string, template: string, parts: map<string, string>, key: string)
    ensures Build(fold, ns, template, parts) == Ok(key)
            <==> TemplateOk(ns, template) && Owns(ns, key) && SegmentsAre(fold, parts, Tail(ns, template), KeyTail(ns, key))
  {
    if TemplateOk(ns, template) {
      if Build(fold, ns, template, parts) == Ok(key) {
        BuiltTail(fold, ns, template, parts);
        FilledSegments(fold, parts, Tail(ns, template), KeyTail(ns, key));
      } else if Owns(ns, key) {
        FilledSegments(fold, parts, Tail(ns, template), KeyTail(ns, key));
        KeyFromTail(ns, key);
      }
    }
  }

  /** The names whose part has no word, in order. */
  function Wordless(fold: string -> string, parts: map<string, string>, names: seq<string>): seq<string> {
    if names == [] then []
    else (if PartWords(fold, parts, names[0]) == [] then [names[0]] else []) + Wordless(fold, parts, names[1..])
  }

  lemma {:induction false} WordlessLast(fold: string -> string, parts: map<string, string>, names: seq<string>, last: string)
    ensures Wordless(fold, parts, names + [last])
            == Wordless(fold, parts, names) + if PartWords(fold, parts, last) == [] then [last] else []
  {
    var more := names + [last];
    if names == [] {
      assert more[1..] == [];
    } else {
      assert more[1..] == names[1..] + [last];
      WordlessLast(fold, parts, names[1..], last);
    }
  }

  lemma {:induction false} NamesOfLast(tail: seq<string>, seg: string)
    ensures NamesOf(tail + [seg]) == NamesOf(tail) + if IsSlot(seg) then [SlotName(seg)] else []
  {
    var more := tail + [seg];
    if tail == [] {
      assert more[1..] == [];
    } else {
      assert more[1..] == tail[1..] + [seg];
      NamesOfLast(tail[1..], seg);
    }
  }

  lemma {:induction false} MissingAreWordless(fold: string -> string, tail: seq<string>, parts: map<string, string>, n: nat)
    requires n <= |tail|
    ensures MissingIn(fold, tail, parts, n) == Wordless(fold, parts, NamesOf(tail[..n]))
  {
    if n > 0 {
      var last := tail[n - 1];
      MissingAreWordless(fold, tail, parts, n - 1);
      assert tail[..n] == tail[..n - 1] + [last];
      NamesOfLast(tail[..n - 1], last);
      var before := NamesOf(tail[..n - 1]);
      if IsSlot(last) {
        SlugIsWords(fold, PartOf(parts, SlotName(last)));
        WordlessLast(fold, parts, before, SlotName(last));
      } else {
        assert NamesOf(tail[..n]) == before;
      }
    }
  }

  /** The refusals: a blank template, a text that is no template, or the parts without a word, in the
      order of their slots. */
  lemma RefusedKeyTells(fold: string -> string, ns: string, template: string, parts: map<string, string>)
    ensures Build(fold, ns, template, parts) == Err(BlankTemplate) <==> Strip(template) == ""
    ensures Build(fold, ns, template, parts) == Err(BadTemplate) <==> Strip(template) != "" && !TemplateOk(ns, template)
    ensures TemplateOk(ns, template) ==>
              var names := Wordless(fold, parts, NamesOf(Tail(ns, template)));
              if names == [] then Build(fold, ns, template, parts).Ok?
              else Build(fold, ns, template, parts) == Err(MissingParts(names))
  {
    if TemplateOk(ns, template) {
      var tail := Tail(ns, template);
      MissingAreWordless(fold, tail, parts, |tail|);
      assert tail[..|tail|] == tail;
    }
  }

  /** Two part maps build one key exactly when each slot's parts have the same words, letter case
      aside. */
  lemma SameKeyIffSameWords(fold: string -> string, ns: string, template: string,
                            p: map<string, string>, q: map<string, string>)
    requires Build(fold, ns, template, p).Ok? && Build(fold, ns, template, q).Ok?
    ensures Build(fold, ns, template, p) == Build(fold, ns, template, q)
            <==> forall name :: name in NamesOf(Tail(ns, template)) ==> PartWords(fold, p, name) == PartWords(fold, q, name)
  {
    SameKeyIffSameSlugs(fold, ns, template, p, q);
    forall name | name in NamesOf(Tail(ns, template))
      ensures SlugFor(fold, p, name) == SlugFor(fold, q, name) <==> PartWords(fold, p, name) == PartWords(fold, q, name)
    {
      SameSlugIffSameWords(fold, PartOf(p, name), PartOf(q, name));
    }
  }

  /** The words of an ASCII part are those of its own text. */
  lemma AsciiPartWords(fold: string -> string, parts: map<string, string>, name: string)
    requires KeepsAscii(fold) && IsAscii(PartOf(parts, name))
    ensures PartWords(fold, parts, name) == LowerAll(AlnumWords(PartOf(parts, name)))
  {
    AsciiIsKept(fold, PartOf(parts, name));
  }
}
