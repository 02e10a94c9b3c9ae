/** Key segments and the normaliser that produces them. */
module Slugs {
  import opened Text

  predicate IsSegmentChar(c: char) {
    'a' <= c <= 'z' || '0' <= c <= '9'
  }

  predicate IsAlnum(c: char) {
    IsSegmentChar(c) || 'A' <= c <= 'Z'
  }

  predicate AllSegmentChars(s: string) {
    forall i :: 0 <= i < |s| ==> IsSegmentChar(s[i])
  }

  /** `[a-z0-9]+(-[a-z0-9]+)*`: the pieces between dashes are non-empty words. */
  predicate ValidSegment(s: string) {
    var pieces := Split(s, '-');
    forall i :: 0 <= i < |pieces| ==> pieces[i] != "" && AllSegmentChars(pieces[i])
  }

  predicate SlugChars(s: string) {
    forall i :: 0 <= i < |s| ==> IsSegmentChar(s[i]) || s[i] == '-'
  }

  predicate NoDoubleDash(s: string) {
    forall i :: 0 <= i < |s| - 1 ==> !(s[i] == '-' && s[i + 1] == '-')
  }

  predicate NoEdgeDash(s: string) {
    s != "" ==> s[0] != '-' && s[|s| - 1] != '-'
  }

  /** The same set of strings, seen character by character. */
  lemma {:induction false} SegmentChars(s: string)
    ensures ValidSegment(s) <==> s != "" && SlugChars(s) && NoDoubleDash(s) && NoEdgeDash(s)
  {
    SegmentTail(s);
    if s == "" {
      assert Split(s, '-')[0] == "";
    } else if s[0] == '-' {
      assert Split(s, '-')[0] == "";
    }
  }

  /** Every piece after the first is a non-empty word, the first is a word. */
  predicate WordsAfterFirst(pieces: seq<string>) {
    && |pieces| > 0
    && AllSegmentChars(pieces[0])
    && forall i :: 1 <= i < |pieces| ==> pieces[i] != "" && AllSegmentChars(pieces[i])
  }

  lemma {:induction false} SegmentTail(s: string)
    ensures WordsAfterFirst(Split(s, '-'))
            <==> SlugChars(s) && NoDoubleDash(s) && (s != "" ==> s[|s| - 1] != '-')
    ensures Split(s, '-')[0] == "" <==> s == "" || s[0] == '-'
  {
    if s != "" {
      var rest := s[1..];
      SegmentTail(rest);
      var p, q := Split(s, '-'), Split(rest, '-');
      assert s == [s[0]] + rest;
      if s[0] == '-' {
        assert p == [""] + q;
        assert forall i :: 1 <= i < |p| ==> p[i] == q[i - 1];
        assert WordsAfterFirst(p) <==> WordsAfterFirst(q) && q[0] != "" by {
          if WordsAfterFirst(p) {
            assert p[1] == q[0];
            forall i | 1 <= i < |q| ensures q[i] != "" && AllSegmentChars(q[i]) { assert p[i + 1] == q[i]; }
          }
        }
        assert SlugChars(s) <==> SlugChars(rest) by { if SlugChars(s) { TailChars(s); } }
        assert NoDoubleDash(s) <==> NoDoubleDash(rest) && !(rest != "" && rest[0] == '-') by { TailDashes(s); }
      } else {
        assert p[1..] == q[1..] && p[0] == [s[0]] + q[0];
        assert forall i :: 1 <= i < |p| ==> p[i] == q[i];
        assert AllSegmentChars(p[0]) <==> IsSegmentChar(s[0]) && AllSegmentChars(q[0]) by {
          if AllSegmentChars(p[0]) {
            assert p[0][0] == s[0];
            forall i | 0 <= i < |q[0]| ensures IsSegmentChar(q[0][i]) { assert p[0][i + 1] == q[0][i]; }
          }
        }
        assert SlugChars(s) <==> IsSegmentChar(s[0]) && SlugChars(rest) by { if SlugChars(s) { TailChars(s); } }
        assert NoDoubleDash(s) <==> NoDoubleDash(rest) by { TailDashes(s); }
      }
    }
  }

  lemma TailChars(s: string)
    requires s != "" && SlugChars(s)
    ensures SlugChars(s[1..])
  {
    forall i | 0 <= i < |s[1..]| ensures IsSegmentChar(s[1..][i]) || s[1..][i] == '-' { assert s[1..][i] == s[i + 1]; }
  }

  lemma TailDashes(s: string)
    requires s != ""
    ensures NoDoubleDash(s) <==> NoDoubleDash(s[1..]) && !(|s| > 1 && s[0] == '-' && s[1] == '-')
  {
    var rest := s[1..];
    if NoDoubleDash(s) {
      forall i | 0 <= i < |rest| - 1 ensures !(rest[i] == '-' && rest[i + 1] == '-') {
        assert !(s[i + 1] == '-' && s[i + 2] == '-');
      }
    }
    if NoDoubleDash(rest) {
      forall i | 1 <= i < |s| - 1 ensures !(s[i] == '-' && s[i + 1] == '-') {
        assert !(rest[i - 1] == '-' && rest[i] == '-');
      }
    }
  }

  // ---- the normaliser ---------------------------------------------------------------

  /** `value.replace("đ", "d").replace("Đ", "D")` */
  function ReplaceStrokeD(s: string): (r: string)
    ensures |r| == |s|
  {
    seq(|s|, i requires 0 <= i < |s| =>
      if s[i] == '\U{0111}' then 'd' else if s[i] == '\U{0110}' then 'D' else s[i])
  }

  /** `re.sub(r"[^a-zA-Z0-9]+", "-", text)`: one dash for each run of other characters. */
  function DashRuns(s: string): string {
    if s == "" then ""
    else if IsAlnum(s[0]) then [s[0]] + DashRuns(s[1..])
    else if |s| > 1 && !IsAlnum(s[1]) then DashRuns(s[1..])
    else "-" + DashRuns(s[1..])
  }

  function DropFrontDashes(s: string): string {
    if s != "" && s[0] == '-' then DropFrontDashes(s[1..]) else s
  }

  function DropBackDashes(s: string): (r: string)
    ensures r <= s
    ensures r != "" ==> r[|r| - 1] != '-'
  {
    if s != "" && s[|s| - 1] == '-' then DropBackDashes(s[..|s| - 1]) else s
  }

  /** `re.sub(r"-{2,}", "-", text)` */
  function CollapseDashes(s: string): string {
    if |s| < 2 then s
    else if s[0] == '-' && s[1] == '-' then CollapseDashes(s[1..])
    else [s[0]] + CollapseDashes(s[1..])
  }

  /** The text before the last collapse step. */
  function Dashed(fold: string -> string, value: string): string {
    Lower(DropBackDashes(DropFrontDashes(DashRuns(fold(ReplaceStrokeD(value))))))
  }

  /** `slugify(value)`. `fold` is the NFKD fold to ASCII, which this model does not look into. */
  function Slugify(fold: string -> string, value: string): string {
    CollapseDashes(Dashed(fold, value))
  }

  predicate IsAscii(s: string) {
    forall i :: 0 <= i < |s| ==> (s[i] as int) < 128
  }

  /** What is assumed of the fold: ASCII text folds to itself. */
  ghost predicate KeepsAscii(fold: string -> string) {
    forall s: string :: IsAscii(s) ==> fold(s) == s
  }

  predicate Alnums(s: string) {
    forall i :: 0 <= i < |s| ==> IsAlnum(s[i]) || s[i] == '-'
  }

  lemma {:induction false} DashRunsShape(s: string)
    ensures Alnums(DashRuns(s)) && NoDoubleDash(DashRuns(s))
    ensures s != "" ==> DashRuns(s) != "" && (DashRuns(s)[0] == '-' <==> !IsAlnum(s[0]))
  {
    if s != "" {
      DashRunsShape(s[1..]);
      if IsAlnum(s[0]) || |s| == 1 || IsAlnum(s[1]) {
        var r := DashRuns(s);
        assert r[1..] == DashRuns(s[1..]);
        TailDashes(r);
        assert forall i :: 1 <= i < |r| ==> r[i] == r[1..][i - 1];
      }
    }
  }

  lemma {:induction false} DropFrontShape(s: string)
    requires Alnums(s) && NoDoubleDash(s)
    ensures Alnums(DropFrontDashes(s)) && NoDoubleDash(DropFrontDashes(s))
    ensures DropFrontDashes(s) != "" ==> DropFrontDashes(s)[0] != '-'
  {
    if s != "" && s[0] == '-' {
      TailDashes(s);
      assert forall i :: 0 <= i < |s[1..]| ==> s[1..][i] == s[i + 1];
      DropFrontShape(s[1..]);
    }
  }

  lemma {:induction false} CollapseNothing(s: string)
    requires NoDoubleDash(s)
    ensures CollapseDashes(s) == s
  {
    if |s| >= 2 {
      TailDashes(s);
      CollapseNothing(s[1..]);
    }
  }

  lemma DashedShape(fold: string -> string, value: string)
    ensures NoDoubleDash(Dashed(fold, value))
    ensures Dashed(fold, value) == "" || ValidSegment(Dashed(fold, value))
  {
    var runs := DashRuns(fold(ReplaceStrokeD(value)));
    DashRunsShape(fold(ReplaceStrokeD(value)));
    DropFrontShape(runs);
    var front := DropFrontDashes(runs);
    var both := DropBackDashes(front);
    assert forall i :: 0 <= i < |both| ==> both[i] == front[i];
    var low := Lower(both);
    assert low == Dashed(fold, value);
    assert forall i :: 0 <= i < |low| ==> (low[i] == '-' <==> both[i] == '-');
    SegmentChars(low);
  }

  /** A slug is empty or a valid key segment, and the last collapse step changes nothing. */
  lemma SlugIsSegment(fold: string -> string, value: string)
    ensures Slugify(fold, value) == "" || ValidSegment(Slugify(fold, value))
    ensures Slugify(fold, value) == Dashed(fold, value)
  {
    DashedShape(fold, value);
    CollapseNothing(Dashed(fold, value));
  }

  lemma {:induction false} DashRunsIdentity(s: string)
    requires SlugChars(s) && NoDoubleDash(s)
    ensures DashRuns(s) == s
  {
    if s != "" {
      TailDashes(s);
      TailChars(s);
      DashRunsIdentity(s[1..]);
      assert |s| > 1 ==> IsSegmentChar(s[1]) || s[1] == '-';
    }
  }

  /** Valid segments are their own slug, so the normaliser is idempotent. */
  lemma SlugOfSegment(fold: string -> string, s: string)
    requires KeepsAscii(fold)
    requires ValidSegment(s)
    ensures Slugify(fold, s) == s
  {
    SegmentChars(s);
    SlugCharsAreKept(fold, s);
    DashRunsIdentity(s);
    EdgesKept(s);
    CollapseNothing(s);
  }

  lemma SlugCharsAreKept(fold: string -> string, s: string)
    requires KeepsAscii(fold) && SlugChars(s)
    ensures fold(ReplaceStrokeD(s)) == s && Lower(s) == s
  {
    assert ReplaceStrokeD(s) == s;
    assert IsAscii(s);
    assert Lower(s) == s;
  }

  lemma EdgesKept(s: string)
    requires NoEdgeDash(s)
    ensures DropBackDashes(DropFrontDashes(s)) == s
  {
  }

  lemma SlugIdempotent(fold: string -> string, value: string)
    requires KeepsAscii(fold)
    ensures Slugify(fold, Slugify(fold, value)) == Slugify(fold, value)
  {
    SlugIsSegment(fold, value);
    if Slugify(fold, value) == "" {
      assert ReplaceStrokeD("") == "";
      assert IsAscii("");
      assert fold("") == "";
    } else {
      SlugOfSegment(fold, Slugify(fold, value));
    }
  }

  lemma SegmentHasNoDot(s: string)
    requires ValidSegment(s)
    ensures '.' !in s && '{' !in s && '}' !in s
  {
    SegmentChars(s);
  }

  // ---- what a slug is ---------------------------------------------------------------

  predicate IsWord(s: string) {
    s != "" && forall i :: 0 <= i < |s| ==> IsAlnum(s[i])
  }

  predicate IsGap(s: string) {
    forall i :: 0 <= i < |s| ==> !IsAlnum(s[i])
  }

  /** Words with gaps around and between them. */
  function Spelled(gaps: seq<string>, words: seq<string>): string
    requires |gaps| == |words| + 1
  {
    if words == [] then gaps[0] else gaps[0] + words[0] + Spelled(gaps[1..], words[1..])
  }

  /** No two words touch. */
  predicate AreWords(gaps: seq<string>, words: seq<string>) {
    && |gaps| == |words| + 1
    && (forall i :: 0 <= i < |words| ==> IsWord(words[i]))
    && (forall i :: 0 <= i < |gaps| ==> IsGap(gaps[i]))
    && (forall i :: 1 <= i < |words| ==> gaps[i] != "")
  }

  /** The maximal runs of letters and digits. */
  function AlnumWords(s: string): (words: seq<string>)
    ensures s != "" && IsAlnum(s[0]) ==> words != []
  {
    if s == "" then []
    else if !IsAlnum(s[0]) then AlnumWords(s[1..])
    else if |s| == 1 || !IsAlnum(s[1]) then [[s[0]]] + AlnumWords(s[1..])
    else
      var rest := AlnumWords(s[1..]);
      [[s[0]] + rest[0]] + rest[1..]
  }

  /** Every text is its words with gaps that hold no letter or digit. */
  lemma {:induction false} TextOfWords(s: string) returns (gaps: seq<string>)
    ensures AreWords(gaps, AlnumWords(s)) && Spelled(gaps, AlnumWords(s)) == s
    ensures s != "" && IsAlnum(s[0]) <==> AlnumWords(s) != [] && gaps[0] == ""
  {
    if s == "" {
      gaps := [""];
    } else {
      var rest := TextOfWords(s[1..]);
      var words := AlnumWords(s[1..]);
      assert s == [s[0]] + s[1..];
      if !IsAlnum(s[0]) {
        gaps := [[s[0]] + rest[0]] + rest[1..];
        assert gaps[1..] == rest[1..];
        LongerGap(s[0], rest, words);
      } else if |s| == 1 || !IsAlnum(s[1]) {
        gaps := [""] + rest;
        assert gaps[1..] == rest && AlnumWords(s)[1..] == words;
        assert "" + [s[0]] + Spelled(rest, words) == s;
      } else {
        gaps := rest;
        LongerWord(s[0], rest, words);
      }
    }
  }

  lemma LongerGap(c: char, gaps: seq<string>, words: seq<string>)
    requires AreWords(gaps, words) && !IsAlnum(c)
    ensures AreWords([[c] + gaps[0]] + gaps[1..], words)
    ensures Spelled([[c] + gaps[0]] + gaps[1..], words) == [c] + Spelled(gaps, words)
  {
    var more := [[c] + gaps[0]] + gaps[1..];
    assert more[1..] == gaps[1..];
    forall i | 0 <= i < |more| ensures IsGap(more[i]) { assert i > 0 ==> more[i] == gaps[i]; }
    if words != [] {
      assert ([c] + gaps[0]) + words[0] + Spelled(gaps[1..], words[1..]) == [c] + (gaps[0] + words[0] + Spelled(gaps[1..], words[1..]));
    }
  }

  lemma LongerWord(c: char, gaps: seq<string>, words: seq<string>)
    requires AreWords(gaps, words) && words != [] && gaps[0] == "" && IsAlnum(c)
    ensures AreWords(gaps, [[c] + words[0]] + words[1..])
    ensures Spelled(gaps, [[c] + words[0]] + words[1..]) == [c] + Spelled(gaps, words)
  {
    var more := [[c] + words[0]] + words[1..];
    assert more[1..] == words[1..];
    forall i | 0 <= i < |more| ensures IsWord(more[i]) { assert i > 0 ==> more[i] == words[i]; }
    assert "" + ([c] + words[0]) + Spelled(gaps[1..], words[1..]) == [c] + ("" + words[0] + Spelled(gaps[1..], words[1..]));
  }

  function LowerAll(words: seq<string>): (r: seq<string>)
    ensures |r| == |words|
  {
    seq(|words|, i requires 0 <= i < |words| => Lower(words[i]))
  }

  predicate EndsInGap(s: string) {
    s != "" && !IsAlnum(s[|s| - 1])
  }

  lemma {:induction false} NoWordsIsGap(s: string)
    ensures AlnumWords(s) == [] <==> IsGap(s)
  {
    if s != "" {
      NoWordsIsGap(s[1..]);
      if AlnumWords(s) == [] {
        forall i | 0 <= i < |s| ensures !IsAlnum(s[i]) { assert i > 0 ==> s[i] == s[1..][i - 1]; }
      }
    }
  }

  function BlankIf(b: bool): seq<string> {
    if b then [""] else []
  }

  /** The words, with an empty piece for a gap at either end. */
  function Pieces(s: string): seq<string> {
    BlankIf(s != "" && !IsAlnum(s[0])) + AlnumWords(s) + BlankIf(EndsInGap(s))
  }

  lemma WordsOfLetter(c: char, rest: string)
    requires IsAlnum(c) && rest != ""
    ensures var words := AlnumWords(rest);
            AlnumWords([c] + rest) == if IsAlnum(rest[0]) then [[c] + words[0]] + words[1..] else [[c]] + words
    ensures EndsInGap([c] + rest) <==> EndsInGap(rest)
  {
    assert ([c] + rest)[1..] == rest;
  }

  lemma PiecesOfLetter(c: char, rest: string)
    requires IsAlnum(c) && rest != ""
    ensures Pieces(rest) != [] && Pieces([c] + rest) == [[c] + Pieces(rest)[0]] + Pieces(rest)[1..]
  {
    WordsOfLetter(c, rest);
    var words, back := AlnumWords(rest), BlankIf(EndsInGap(rest));
    if IsAlnum(rest[0]) {
      assert Pieces(rest) == words + back;
      assert Pieces([c] + rest) == [[c] + words[0]] + words[1..] + back;
    } else {
      assert Pieces(rest) == [""] + (words + back);
      assert Pieces([c] + rest) == [[c]] + (words + back);
      assert [c] + "" == [c];
    }
  }

  lemma PiecesOfGap(c: char, rest: string)
    requires !IsAlnum(c) && rest != ""
    ensures Pieces(rest) != [] && Pieces([c] + rest) == if IsAlnum(rest[0]) then [""] + Pieces(rest) else Pieces(rest)
  {
    var s := [c] + rest;
    assert s[1..] == rest;
    assert EndsInGap(s) <==> EndsInGap(rest);
  }

  /** The dashed text is the pieces joined by dashes. */
  lemma {:induction false} DashRunsJoinPieces(s: string)
    ensures DashRuns(s) == Join(Pieces(s), '-')
  {
    if |s| == 1 {
      assert s[1..] == "";
      assert Pieces(s) == if IsAlnum(s[0]) then [[s[0]]] else ["", ""];
    } else if |s| > 1 {
      var rest := s[1..];
      assert s == [s[0]] + rest;
      DashRunsJoinPieces(rest);
      if IsAlnum(s[0]) {
        PiecesOfLetter(s[0], rest);
        JoinLonger(s[0], Pieces(rest), '-');
      } else {
        PiecesOfGap(s[0], rest);
        if IsAlnum(rest[0]) { JoinCons("", Pieces(rest), '-'); }
      }
    }
  }

  lemma JoinEdges(words: seq<string>)
    requires words != [] && forall i :: 0 <= i < |words| ==> IsWord(words[i])
    ensures var j := Join(words, '-'); j != "" && j[0] != '-' && j[|j| - 1] != '-'
  {
    if |words| > 1 { JoinEdges(words[1..]); }
  }

  lemma {:induction false} LowerJoin(words: seq<string>)
    ensures Lower(Join(words, '-')) == Join(LowerAll(words), '-')
  {
    if |words| > 1 {
      LowerJoin(words[1..]);
      var joined := Join(words[1..], '-');
      assert LowerAll(words)[1..] == LowerAll(words[1..]);
      assert Lower(words[0] + ['-'] + joined) == Lower(words[0]) + ['-'] + Lower(joined);
    }
  }

  lemma {:induction false} JoinThenBlank(words: seq<string>)
    requires words != []
    ensures Join(words + [""], '-') == Join(words, '-') + "-"
  {
    var more := words + [""];
    assert more[1..] == words[1..] + [""];
    if |words| > 1 {
      JoinThenBlank(words[1..]);
      assert words[0] + ['-'] + (Join(words[1..], '-') + "-") == (words[0] + ['-'] + Join(words[1..], '-')) + "-";
    }
  }

  lemma FrontDashOff(t: string)
    requires t != "" ==> t[0] != '-'
    ensures DropFrontDashes(t) == t && DropFrontDashes("-" + t) == t
  {
    assert ("-" + t)[1..] == t;
  }

  lemma BackDashOff(t: string)
    requires t != "" ==> t[|t| - 1] != '-'
    ensures DropBackDashes(t) == t && DropBackDashes(t + "-") == t
  {
    assert (t + "-")[..|t|] == t;
  }

  lemma BackBlankOff(words: seq<string>, back: bool)
    requires words != [] && forall i :: 0 <= i < |words| ==> IsWord(words[i])
    ensures var text := Join(words + BlankIf(back), '-'); text != "" && text[0] != '-' && DropBackDashes(text) == Join(words, '-')
  {
    JoinEdges(words);
    BackDashOff(Join(words, '-'));
    if back { JoinThenBlank(words); } else { assert words + BlankIf(back) == words; }
  }

  lemma FrontBlankOff(pieces: seq<string>, front: bool)
    requires pieces != [] && Join(pieces, '-') != "" && Join(pieces, '-')[0] != '-'
    ensures DropFrontDashes(Join(BlankIf(front) + pieces, '-')) == Join(pieces, '-')
  {
    FrontDashOff(Join(pieces, '-'));
    if front {
      JoinCons("", pieces, '-');
      assert "" + ['-'] + Join(pieces, '-') == "-" + Join(pieces, '-');
    } else {
      assert BlankIf(front) + pieces == pieces;
    }
  }

  lemma PiecesStripped(s: string)
    ensures DropBackDashes(DropFrontDashes(Join(Pieces(s), '-'))) == Join(AlnumWords(s), '-')
  {
    var gaps := TextOfWords(s);
    var words, back := AlnumWords(s), EndsInGap(s);
    NoWordsIsGap(s);
    if words != [] {
      assert Pieces(s) == BlankIf(!IsAlnum(s[0])) + (words + BlankIf(back));
      BackBlankOff(words, back);
      FrontBlankOff(words + BlankIf(back), !IsAlnum(s[0]));
    } else if s != "" {
      assert Pieces(s) == ["", ""];
      FrontDashOff("");
    }
  }

  /** A slug is the folded text's runs of letters and digits, lower-cased and joined by dashes. */
  lemma SlugIsWords(fold: string -> string, value: string)
    ensures Slugify(fold, value) == Join(LowerAll(AlnumWords(fold(ReplaceStrokeD(value)))), '-')
    ensures Slugify(fold, value) == "" <==> AlnumWords(fold(ReplaceStrokeD(value))) == []
  {
    var s := fold(ReplaceStrokeD(value));
    var words := AlnumWords(s);
    var gaps := TextOfWords(s);
    DashRunsJoinPieces(s);
    PiecesStripped(s);
    if words != [] { JoinEdges(words); }
    LowerJoin(words);
    SlugIsSegment(fold, value);
  }

  lemma AsciiIsKept(fold: string -> string, value: string)
    requires KeepsAscii(fold) && IsAscii(value)
    ensures fold(ReplaceStrokeD(value)) == value
  {
    assert ReplaceStrokeD(value) == value;
  }

  lemma LoweredWordsAreWords(s: string)
    ensures var words := LowerAll(AlnumWords(s)); forall i :: 0 <= i < |words| ==> words[i] != "" && '-' !in words[i]
  {
    var gaps := TextOfWords(s);
    var words := LowerAll(AlnumWords(s));
    forall i | 0 <= i < |words| ensures words[i] != "" && '-' !in words[i] { assert IsWord(AlnumWords(s)[i]); }
  }

  lemma {:induction false} JoinedWordsDiffer(a: seq<string>, b: seq<string>)
    requires forall i :: 0 <= i < |a| ==> a[i] != "" && '-' !in a[i]
    requires forall i :: 0 <= i < |b| ==> b[i] != "" && '-' !in b[i]
    ensures Join(a, '-') == Join(b, '-') <==> a == b
  {
    if a != [] { SplitJoin(a, '-'); }
    if b != [] { SplitJoin(b, '-'); }
  }

  /** Two values have the same slug exactly when they have the same words, letter case aside. */
  lemma SameSlugIffSameWords(fold: string -> string, a: string, b: string)
    ensures Slugify(fold, a) == Slugify(fold, b)
            <==> LowerAll(AlnumWords(fold(ReplaceStrokeD(a)))) == LowerAll(AlnumWords(fold(ReplaceStrokeD(b))))
  {
    SlugIsWords(fold, a);
    SlugIsWords(fold, b);
    LoweredWordsAreWords(fold(ReplaceStrokeD(a)));
    LoweredWordsAreWords(fold(ReplaceStrokeD(b)));
    JoinedWordsDiffer(LowerAll(AlnumWords(fold(ReplaceStrokeD(a)))), LowerAll(AlnumWords(fold(ReplaceStrokeD(b)))));
  }

  /** For ASCII text these are the words of the text itself. */
  lemma AsciiSlug(fold: string -> string, a: string, b: string)
    requires KeepsAscii(fold) && IsAscii(a) && IsAscii(b)
    ensures Slugify(fold, a) == Join(LowerAll(AlnumWords(a)), '-')
    ensures Slugify(fold, a) == "" <==> IsGap(a)
    ensures Slugify(fold, a) == Slugify(fold, b) <==> LowerAll(AlnumWords(a)) == LowerAll(AlnumWords(b))
  {
    AsciiIsKept(fold, a);
    AsciiIsKept(fold, b);
    SlugIsWords(fold, a);
    NoWordsIsGap(a);
    SameSlugIffSameWords(fold, a, b);
  }

  /** A letter d with a stroke, which no fold takes apart, counts as a plain one. */
  lemma StrokedDIsD(fold: string -> string, front: string, back: string)
    ensures Slugify(fold, front + "\U{0111}" + back) == Slugify(fold, front + "d" + back)
    ensures Slugify(fold, front + "\U{0110}" + back) == Slugify(fold, front + "D" + back)
  {
    assert ReplaceStrokeD(front + "\U{0111}" + back) == ReplaceStrokeD(front + "d" + back);
    assert ReplaceStrokeD(front + "\U{0110}" + back) == ReplaceStrokeD(front + "D" + back);
  }
}
