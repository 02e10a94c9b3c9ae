/** The stable text form that is hashed, and the item keys of the ingest ledger. */
module Hashing {
  import opened Wrappers
  import opened Text

  // ---- the program ------------------------------------------------------------------

  /** `content.replace("\r\n", "\n")` */
  function ReplaceCrLf(s: string): string {
    if s == "" then ""
    else if |s| > 1 && s[0] == '\r' && s[1] == '\n' then "\n" + ReplaceCrLf(s[2..])
    else [s[0]] + ReplaceCrLf(s[1..])
  }

  /** `.replace("\r", "\n")` */
  function ReplaceCr(s: string): (r: string)
    ensures |r| == |s|
  {
    seq(|s|, i requires 0 <= i < |s| => if s[i] == '\r' then '\n' else s[i])
  }

  function RStripAll(lines: seq<string>): (r: seq<string>)
    ensures |r| == |lines|
  {
    seq(|lines|, i requires 0 <= i < |lines| => RStrip(lines[i]))
  }

  function CanonicalizeContent(content: string): string {
    var normalized := ReplaceCr(ReplaceCrLf(content));
    Strip(Join(RStripAll(Split(normalized, '\n')), '\n'))
  }

  // ---- a one-pass form --------------------------------------------------------------

  /** Both newline replacements in one pass. */
  function Norm(s: string): (r: string)
    ensures '\r' !in r
  {
    if s == "" then ""
    else if s[0] == '\r' then "\n" + Norm(if |s| > 1 && s[1] == '\n' then s[2..] else s[1..])
    else [s[0]] + Norm(s[1..])
  }

  predicate Blank(c: char) {
    IsSpace(c) && c != '\n'
  }

  /** Drops every blank that is followed, blanks aside, by a newline or the end. */
  function TrimLines(s: string): string {
    if s == "" then ""
    else
      var t := TrimLines(s[1..]);
      if Blank(s[0]) && (t == "" || t[0] == '\n') then t else [s[0]] + t
  }

  lemma {:induction false} NormIsTwoPasses(s: string)
    ensures ReplaceCr(ReplaceCrLf(s)) == Norm(s)
  {
    if s != "" {
      var two := |s| > 1 && s[0] == '\r' && s[1] == '\n';
      var rest := if two then s[2..] else s[1..];
      NormIsTwoPasses(rest);
      var head := if two then '\n' else s[0];
      assert ReplaceCrLf(s) == [head] + ReplaceCrLf(rest);
      assert ReplaceCr([head] + ReplaceCrLf(rest)) == ReplaceCr([head]) + ReplaceCr(ReplaceCrLf(rest));
    }
  }

  lemma {:induction false} RStripFront(c: char, s: string)
    ensures RStrip([c] + s) == if RStrip(s) == "" && IsSpace(c) then "" else [c] + RStrip(s)
  {
    var t := [c] + s;
    if s == "" {
      assert t[..0] == "";
    } else {
      assert t[|t| - 1] == s[|s| - 1];
      if IsSpace(s[|s| - 1]) {
        assert t[..|t| - 1] == [c] + s[..|s| - 1];
        RStripFront(c, s[..|s| - 1]);
      }
    }
  }

  lemma RStripAllCons(line: string, rest: seq<string>)
    ensures RStripAll([line] + rest) == [RStrip(line)] + RStripAll(rest)
  {
  }

  lemma JoinHead(first: string, rest: seq<string>)
    requires forall i :: 0 <= i < |first| ==> first[i] != '\n'
    ensures Join([first] + rest, '\n') == first + Join([""] + rest, '\n')
    ensures Join([""] + rest, '\n') == "" || Join([""] + rest, '\n')[0] == '\n'
  {
    assert ([first] + rest)[1..] == rest;
    assert ([""] + rest)[1..] == rest;
  }

  lemma {:induction false} TrimLinesIsRStripOfLines(s: string)
    ensures Join(RStripAll(Split(s, '\n')), '\n') == TrimLines(s)
  {
    if s != "" {
      var rest := Split(s[1..], '\n');
      TrimLinesIsRStripOfLines(s[1..]);
      if s[0] == '\n' {
        RStripAllCons("", rest);
        JoinCons("", RStripAll(rest), '\n');
      } else {
        SplitParts(s[1..], '\n');
        assert rest == [rest[0]] + rest[1..];
        AddToFirstLine(s[0], rest[0], rest[1..]);
      }
    }
  }

  lemma LongerHead(c: char, first: string, rest: seq<string>)
    requires c != '\n' && '\n' !in first
    ensures Join([[c] + first] + rest, '\n') == [c] + Join([first] + rest, '\n')
    ensures Join([first] + rest, '\n') == "" || Join([first] + rest, '\n')[0] == '\n' <==> first == ""
  {
    JoinHead(first, rest);
    JoinHead([c] + first, rest);
    var tail := Join([""] + rest, '\n');
    assert ([c] + first) + tail == [c] + (first + tail);
  }

  lemma AddToFirstLine(c: char, line: string, rest: seq<string>)
    requires c != '\n' && '\n' !in line
    ensures Join(RStripAll([[c] + line] + rest), '\n')
            == var t := Join(RStripAll([line] + rest), '\n');
               if Blank(c) && (t == "" || t[0] == '\n') then t else [c] + t
  {
    RStripAllCons(line, rest);
    RStripAllCons([c] + line, rest);
    RStripFront(c, line);
    LongerHead(c, RStrip(line), RStripAll(rest));
  }

  /** What `CanonicalizeContent` computes, in one pass and one strip. */
  lemma CanonicalForm(content: string)
    ensures CanonicalizeContent(content) == Strip(TrimLines(Norm(content)))
  {
    NormIsTwoPasses(content);
    TrimLinesIsRStripOfLines(Norm(content));
  }

  // ---- ends are ignored -------------------------------------------------------------

  lemma CanonicalFront(c: char, s: string)
    requires IsSpace(c)
    ensures CanonicalizeContent([c] + s) == CanonicalizeContent(s)
  {
    CanonicalForm([c] + s);
    CanonicalForm(s);
    var t := [c] + s;
    if c == '\r' && s != "" && s[0] == '\n' {
      assert t[2..] == s[1..];
    } else {
      assert t[1..] == s;
      var u := Norm(s);
      var d := if c == '\r' then '\n' else c;
      assert Norm(t) == [d] + u;
      assert ([d] + u)[1..] == u;
      StripFront(d, TrimLines(u));
    }
  }

  lemma {:induction false} NormBack(s: string, c: char)
    ensures Norm(s + [c])
            == if c == '\n' && s != "" && s[|s| - 1] == '\r' then Norm(s) else Norm(s) + [if c == '\r' then '\n' else c]
  {
    var t := s + [c];
    if s == "" {
      assert t[1..] == "";
    } else if s[0] == '\r' && |s| > 1 && s[1] == '\n' {
      assert t[2..] == s[2..] + [c];
      NormBack(s[2..], c);
      if |s| == 2 { assert s[2..] == ""; } else { assert s[2..][|s[2..]| - 1] == s[|s| - 1]; }
    } else if |s| == 1 {
      assert t[1..] == [c] && s[1..] == "";
      assert [c][1..] == "";
      if s[0] == '\r' && c == '\n' { assert t[2..] == ""; }
    } else {
      assert t[1..] == s[1..] + [c];
      NormBack(s[1..], c);
      assert s[1..][|s[1..]| - 1] == s[|s| - 1];
    }
  }

  lemma {:induction false} TrimLinesBack(s: string, c: char)
    requires IsSpace(c)
    ensures TrimLines(s + [c]) == if c == '\n' then TrimLines(s) + "\n" else TrimLines(s)
  {
    if s == "" {
      assert (s + [c])[1..] == "";
    } else {
      assert (s + [c])[1..] == s[1..] + [c];
      TrimLinesBack(s[1..], c);
    }
  }

  lemma CanonicalBack(s: string, c: char)
    requires IsSpace(c)
    ensures CanonicalizeContent(s + [c]) == CanonicalizeContent(s)
  {
    CanonicalForm(s + [c]);
    CanonicalForm(s);
    NormBack(s, c);
    if Norm(s + [c]) != Norm(s) {
      var d := if c == '\r' then '\n' else c;
      TrimLinesBack(Norm(s), d);
      StripBack(TrimLines(Norm(s)), '\n');
    }
  }

  /** Spaces and newlines around the whole text are ignored. */
  lemma {:induction false} CanonicalIgnoresEnds(front: string, s: string, back: string)
    requires AllSpace(front) && AllSpace(back)
    ensures CanonicalizeContent(front + s + back) == CanonicalizeContent(s)
  {
    if front != "" {
      assert front + s + back == [front[0]] + (front[1..] + s + back);
      CanonicalIgnoresEnds(front[1..], s, back);
      CanonicalFront(front[0], front[1..] + s + back);
    } else if back != "" {
      var k := |back| - 1;
      assert front + s + back == (front + s + back[..k]) + [back[k]];
      CanonicalIgnoresEnds(front, s, back[..k]);
      CanonicalBack(front + s + back[..k], back[k]);
    } else {
      assert front + s + back == s;
    }
  }

  /** The strip that only the ingest path performs does not change the canonical text. */
  lemma CanonicalOfStrip(s: string)
    ensures CanonicalizeContent(Strip(s)) == CanonicalizeContent(s)
  {
    var front, back := StripSplits(s);
    CanonicalIgnoresEnds(front, Strip(s), back);
  }

  // ---- idempotence ------------------------------------------------------------------

  /** No blank stands before a newline or at the end. */
  predicate NoTrailingBlanks(s: string) {
    forall i :: 0 <= i < |s| && Blank(s[i]) ==> i + 1 < |s| && s[i + 1] != '\n'
  }

  lemma {:induction false} TrimLinesShape(s: string)
    ensures NoTrailingBlanks(TrimLines(s))
    ensures '\r' !in s ==> '\r' !in TrimLines(s)
  {
    if s != "" {
      TrimLinesShape(s[1..]);
      var t, r := TrimLines(s[1..]), TrimLines(s);
      if r != t {
        forall i | 0 <= i < |r| && Blank(r[i]) ensures i + 1 < |r| && r[i + 1] != '\n' {
          if i > 0 { assert r[i] == t[i - 1]; }
        }
      }
    }
  }

  lemma {:induction false} TrimLinesFixed(s: string)
    requires NoTrailingBlanks(s)
    ensures TrimLines(s) == s
  {
    if s != "" {
      assert NoTrailingBlanks(s[1..]) by {
        forall i | 0 <= i < |s[1..]| && Blank(s[1..][i]) ensures i + 1 < |s[1..]| && s[1..][i + 1] != '\n' {
          assert s[1..][i] == s[i + 1];
        }
      }
      TrimLinesFixed(s[1..]);
      assert s == [s[0]] + s[1..];
    }
  }

  lemma {:induction false} NormFixed(s: string)
    requires '\r' !in s
    ensures Norm(s) == s
  {
    if s != "" {
      NormFixed(s[1..]);
      assert s == [s[0]] + s[1..];
    }
  }

  /** Canonicalizing a canonical text changes nothing. */
  lemma CanonicalIdempotent(s: string)
    ensures CanonicalizeContent(CanonicalizeContent(s)) == CanonicalizeContent(s)
  {
    CanonicalForm(s);
    var v := TrimLines(Norm(s));
    var c := Strip(v);
    CanonicalForm(c);
    TrimLinesShape(Norm(s));
    var front, back := StripSplits(v);
    StripIsTrimmed(v);
    forall i | 0 <= i < |c| ensures c[i] == v[|front| + i] {}
    assert '\r' !in c;
    NormFixed(c);
    assert NoTrailingBlanks(c) by {
      forall i | 0 <= i < |c| && Blank(c[i]) ensures i + 1 < |c| && c[i + 1] != '\n' {
        assert v[|front| + i] == c[i];
      }
    }
    TrimLinesFixed(c);
    StripTrimmed(c);
  }

  // ---- line endings and blanks ------------------------------------------------------

  predicate IsLine(s: string) {
    '\r' !in s && '\n' !in s
  }

  predicate IsEnding(s: string) {
    s == "\n" || s == "\r" || s == "\r\n"
  }

  /** The text with these lines, each but the last with its own ending. */
  function WithEndings(lines: seq<string>, endings: seq<string>): string
    requires |lines| == |endings| + 1
  {
    if endings == [] then lines[0] else lines[0] + endings[0] + WithEndings(lines[1..], endings[1..])
  }

  /** No lone CR is followed by the LF of an empty line: these two would be one CRLF. */
  predicate AreLines(lines: seq<string>, endings: seq<string>) {
    && |lines| == |endings| + 1
    && (forall i :: 0 <= i < |lines| ==> IsLine(lines[i]))
    && (forall i :: 0 <= i < |endings| ==> IsEnding(endings[i]))
    && (forall i :: 0 <= i < |endings| - 1 && endings[i] == "\r" && lines[i + 1] == "" ==> endings[i + 1] != "\n")
  }

  lemma RestAreLines(lines: seq<string>, endings: seq<string>)
    requires AreLines(lines, endings) && endings != []
    ensures AreLines(lines[1..], endings[1..])
  {
    var l, e := lines[1..], endings[1..];
    forall i | 0 <= i < |e| - 1 && e[i] == "\r" && l[i + 1] == "" ensures e[i + 1] != "\n" {
      assert endings[i + 1] == e[i] && lines[i + 2] == l[i + 1] && endings[i + 2] == e[i + 1];
    }
  }

  /** A text of lines starts with a LF exactly when it starts with an empty line that has one. */
  lemma FirstOfLines(lines: seq<string>, endings: seq<string>)
    requires AreLines(lines, endings)
    ensures var s := WithEndings(lines, endings);
            s != "" && s[0] == '\n' <==> lines[0] == "" && endings != [] && endings[0] == "\n"
  {
  }

  lemma {:induction false} NormPlain(a: string, b: string)
    requires '\r' !in a
    ensures Norm(a + b) == a + Norm(b)
  {
    if a == "" {
      assert a + b == b;
    } else {
      assert (a + b)[1..] == a[1..] + b;
      NormPlain(a[1..], b);
    }
  }

  lemma NormEnding(ending: string, rest: string)
    requires IsEnding(ending) && (ending == "\r" && rest != "" ==> rest[0] != '\n')
    ensures Norm(ending + rest) == "\n" + Norm(rest)
  {
    var t := ending + rest;
    if ending == "\r\n" { assert t[2..] == rest; } else { assert t[1..] == rest; }
  }

  lemma NormFirstLine(line: string, ending: string, rest: string)
    requires IsLine(line) && IsEnding(ending) && (ending == "\r" && rest != "" ==> rest[0] != '\n')
    ensures Norm(line + ending + rest) == line + ['\n'] + Norm(rest)
  {
    NormPlain(line, ending + rest);
    NormEnding(ending, rest);
    Reassociate(line, ending, rest);
    Reassociate(line, "\n", Norm(rest));
  }

  lemma {:induction false} NormOfLines(lines: seq<string>, endings: seq<string>)
    requires AreLines(lines, endings)
    ensures Norm(WithEndings(lines, endings)) == Join(lines, '\n')
  {
    if endings == [] {
      NormFixed(lines[0]);
    } else {
      RestAreLines(lines, endings);
      FirstOfLines(lines[1..], endings[1..]);
      NormOfLines(lines[1..], endings[1..]);
      NormFirstLine(lines[0], endings[0], WithEndings(lines[1..], endings[1..]));
    }
  }

  /** The canonical text of lines, whatever their endings. */
  lemma CanonicalOfLines(lines: seq<string>, endings: seq<string>)
    requires AreLines(lines, endings)
    ensures CanonicalizeContent(WithEndings(lines, endings)) == Strip(Join(RStripAll(lines), '\n'))
  {
    NormIsTwoPasses(WithEndings(lines, endings));
    NormOfLines(lines, endings);
    SplitJoin(lines, '\n');
  }

  /** Every text is lines with endings, so what holds of those holds of all texts. */
  lemma {:induction false} EveryTextIsLines(s: string) returns (lines: seq<string>, endings: seq<string>)
    ensures AreLines(lines, endings) && WithEndings(lines, endings) == s
  {
    if s == "" {
      lines, endings := [""], [];
    } else if s[0] == '\n' || s[0] == '\r' {
      var ending := if s[0] == '\n' then "\n" else if |s| > 1 && s[1] == '\n' then "\r\n" else "\r";
      var l, e := EveryTextIsLines(s[|ending|..]);
      FirstOfLines(l, e);
      lines, endings := [""] + l, [ending] + e;
      assert lines[1..] == l && endings[1..] == e;
      assert s == ending + s[|ending|..];
    } else {
      var l, e := EveryTextIsLines(s[1..]);
      lines, endings := [[s[0]] + l[0]] + l[1..], e;
      LongerFirstLine(s[0], l, e);
    }
  }

  lemma LongerFirstLine(c: char, l: seq<string>, e: seq<string>)
    requires AreLines(l, e) && c != '\r' && c != '\n'
    ensures AreLines([[c] + l[0]] + l[1..], e)
    ensures WithEndings([[c] + l[0]] + l[1..], e) == [c] + WithEndings(l, e)
  {
    var lines := [[c] + l[0]] + l[1..];
    assert lines[1..] == l[1..];
    forall i | 0 <= i < |lines| ensures IsLine(lines[i]) { assert i > 0 ==> lines[i] == l[i]; }
    if e != [] {
      Reassociate([c], l[0], e[0]);
      Reassociate([c], l[0] + e[0], WithEndings(l[1..], e[1..]));
    }
  }

  /** Texts with the same lines have the same canonical form, whatever ends each line. */
  lemma CanonicalIgnoresLineEndings(lines: seq<string>, a: seq<string>, b: seq<string>)
    requires AreLines(lines, a) && AreLines(lines, b)
    ensures CanonicalizeContent(WithEndings(lines, a)) == CanonicalizeContent(WithEndings(lines, b))
  {
    CanonicalOfLines(lines, a);
    CanonicalOfLines(lines, b);
  }

  /** Blanks at the end of lines are ignored. */
  lemma CanonicalIgnoresTrailingBlanks(lines: seq<string>, a: seq<string>, padded: seq<string>, b: seq<string>)
    requires AreLines(lines, a) && AreLines(padded, b)
    requires |lines| == |padded| && forall i :: 0 <= i < |lines| ==> RStrip(padded[i]) == RStrip(lines[i])
    ensures CanonicalizeContent(WithEndings(padded, b)) == CanonicalizeContent(WithEndings(lines, a))
  {
    CanonicalOfLines(lines, a);
    CanonicalOfLines(padded, b);
    assert RStripAll(lines) == RStripAll(padded);
  }

  // ---- item keys --------------------------------------------------------------------

  /** `re.sub(r"\s+", " ", s)` */
  function CollapseSpaces(s: string): string {
    if s == "" then ""
    else if !IsSpace(s[0]) then [s[0]] + CollapseSpaces(s[1..])
    else if |s| > 1 && IsSpace(s[1]) then CollapseSpaces(s[1..])
    else " " + CollapseSpaces(s[1..])
  }

  function BuildItemKey(externalId: Option<string>, contentHash: string): string {
    if externalId.Some? && Strip(externalId.value) != ""
    then "ext:" + CollapseSpaces(Strip(externalId.value))
    else "hash:" + contentHash
  }

  /** The maximal runs of non-space characters. */
  function Words(s: string): (words: seq<string>)
    ensures s != "" && !IsSpace(s[0]) ==> |words| > 0
  {
    if s == "" then []
    else if IsSpace(s[0]) then Words(s[1..])
    else if |s| == 1 || IsSpace(s[1]) then [[s[0]]] + Words(s[1..])
    else
      var rest := Words(s[1..]);
      [[s[0]] + rest[0]] + rest[1..]
  }

  lemma {:induction false} WordsHaveNoSpace(s: string)
    ensures forall i :: 0 <= i < |Words(s)| ==> Words(s)[i] != "" && ' ' !in Words(s)[i]
  {
    if s != "" { WordsHaveNoSpace(s[1..]); }
  }

  lemma {:induction false} WordsBack(s: string, c: char)
    requires IsSpace(c)
    ensures Words(s + [c]) == Words(s)
  {
    var t := s + [c];
    if s == "" {
      assert t[1..] == "";
    } else {
      assert t[1..] == s[1..] + [c];
      WordsBack(s[1..], c);
    }
  }

  lemma {:induction false} WordsIgnoreEnds(front: string, s: string, back: string)
    requires AllSpace(front) && AllSpace(back)
    ensures Words(front + s + back) == Words(s)
  {
    if front != "" {
      assert (front + s + back)[1..] == front[1..] + s + back;
      WordsIgnoreEnds(front[1..], s, back);
    } else if back != "" {
      var k := |back| - 1;
      assert front + s + back == (front + s + back[..k]) + [back[k]];
      WordsBack(front + s + back[..k], back[k]);
      WordsIgnoreEnds(front, s, back[..k]);
    } else {
      assert front + s + back == s;
    }
  }

  lemma WordAhead(c: char, words: seq<string>)
    requires |words| > 0
    ensures Join([[c]] + words, ' ') == [c] + (" " + Join(words, ' '))
  {
    JoinCons([c], words, ' ');
    Reassociate([c], " ", Join(words, ' '));
  }

  lemma Reassociate(a: string, b: string, c: string)
    ensures a + b + c == a + (b + c)
  {
  }

  /** The text before the first word, after collapsing. */
  function Gap(s: string): string
    requires s != ""
  {
    if IsSpace(s[0]) then " " else ""
  }

  lemma LetterInFront(c: char, rest: string)
    requires !IsSpace(c) && rest != "" && |Words(rest)| > 0
    ensures Words([c] + rest) == if IsSpace(rest[0]) then [[c]] + Words(rest) else [[c] + Words(rest)[0]] + Words(rest)[1..]
    ensures CollapseSpaces([c] + rest) == [c] + CollapseSpaces(rest)
  {
    assert ([c] + rest)[1..] == rest;
  }

  lemma SpaceInFront(c: char, rest: string)
    requires IsSpace(c) && rest != ""
    ensures Words([c] + rest) == Words(rest)
    ensures CollapseSpaces([c] + rest) == if IsSpace(rest[0]) then CollapseSpaces(rest) else " " + CollapseSpaces(rest)
  {
    assert ([c] + rest)[1..] == rest;
  }

  lemma {:induction false} CollapseJoinsWords(s: string)
    requires s != "" && !IsSpace(s[|s| - 1])
    ensures |Words(s)| > 0
    ensures CollapseSpaces(s) == Gap(s) + Join(Words(s), ' ')
  {
    if |s| == 1 {
      assert s[1..] == "" && [s[0]] == s;
    } else {
      var rest := s[1..];
      assert s == [s[0]] + rest;
      CollapseJoinsWords(rest);
      if IsSpace(s[0]) {
        SpaceInFront(s[0], rest);
      } else {
        LetterInFront(s[0], rest);
        if IsSpace(rest[0]) { WordAhead(s[0], Words(rest)); } else { JoinLonger(s[0], Words(rest), ' '); }
      }
    }
  }

  /** The key of an external id is its words with single spaces. */
  lemma KeyOfWords(id: string, contentHash: string)
    requires Strip(id) != ""
    ensures BuildItemKey(Some(id), contentHash) == "ext:" + Join(Words(id), ' ')
    ensures Words(id) != []
  {
    StripIsTrimmed(id);
    CollapseJoinsWords(Strip(id));
    var front, back := StripSplits(id);
    WordsIgnoreEnds(front, Strip(id), back);
  }

  /** Spacing never forks an item key, and different words never share one. */
  lemma SameKeyIffSameWords(a: string, b: string, hashA: string, hashB: string)
    requires Strip(a) != "" && Strip(b) != ""
    ensures BuildItemKey(Some(a), hashA) == BuildItemKey(Some(b), hashB) <==> Words(a) == Words(b)
  {
    KeyOfWords(a, hashA);
    KeyOfWords(b, hashB);
    WordsHaveNoSpace(a);
    WordsHaveNoSpace(b);
    SplitJoin(Words(a), ' ');
    SplitJoin(Words(b), ' ');
    var ka, kb := BuildItemKey(Some(a), hashA), BuildItemKey(Some(b), hashB);
    assert ka[4..] == Join(Words(a), ' ') && kb[4..] == Join(Words(b), ' ');
  }

  /** A key says whether it came from an external id or from the content. */
  lemma KeyKinds(externalId: Option<string>, contentHash: string)
    ensures "hash:" <= BuildItemKey(externalId, contentHash) <==> !(externalId.Some? && Strip(externalId.value) != "")
    ensures "hash:" <= BuildItemKey(externalId, contentHash) ==> BuildItemKey(externalId, contentHash) == "hash:" + contentHash
  {
    var key := BuildItemKey(externalId, contentHash);
    if externalId.Some? && Strip(externalId.value) != "" {
      assert key[0] == 'e' && "hash:"[0] == 'h';
    }
  }
}
