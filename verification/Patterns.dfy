/** The regular expressions of the service as languages, and the tests of this model against them. */
module Patterns {
  import opened Wrappers
  import opened Text
  import opened Slugs
  import opened KeyTemplates
  import opened Partitions

  /** One character of some ranges, one pattern after another, or a pattern any number of times. */
  datatype Pattern = One(ranges: seq<(char, char)>) | Then(first: Pattern, second: Pattern) | Many(of: Pattern)

  predicate InRanges(ranges: seq<(char, char)>, c: char) {
    exists i :: 0 <= i < |ranges| && ranges[i].0 <= c <= ranges[i].1
  }

  /** The whole text matches. */
  predicate Match(p: Pattern, s: string)
    decreases p, |s|
  {
    match p
    case One(ranges) => |s| == 1 && InRanges(ranges, s[0])
    case Then(first, second) => exists k :: 0 <= k <= |s| && Match(first, s[..k]) && Match(second, s[k..])
    case Many(q) => s == "" || exists k :: 1 <= k <= |s| && Match(q, s[..k]) && Match(p, s[k..])
  }

  function Just(c: char): Pattern {
    One([(c, c)])
  }

  /** `p+` */
  function Plus(p: Pattern): Pattern {
    Then(p, Many(p))
  }

  lemma JustIs(c: char, s: string)
    ensures Match(Just(c), s) <==> s == [c]
  {
    assert [(c, c)][0] == (c, c);
  }

  predicate AllIn(ranges: seq<(char, char)>, s: string) {
    forall i :: 0 <= i < |s| ==> InRanges(ranges, s[i])
  }

  lemma {:induction false} ManyOneIs(ranges: seq<(char, char)>, s: string)
    ensures Match(Many(One(ranges)), s) <==> AllIn(ranges, s)
  {
    if s != "" {
      ManyOneIs(ranges, s[1..]);
      assert s[..1] == [s[0]];
      if AllIn(ranges, s) {
        assert AllIn(ranges, s[1..]);
        assert Match(One(ranges), s[..1]) && Match(Many(One(ranges)), s[1..]);
      }
      if Match(Many(One(ranges)), s) {
        var k :| 1 <= k <= |s| && Match(One(ranges), s[..k]) && Match(Many(One(ranges)), s[k..]);
        assert s[..k][0] == s[0] && k == 1;
        forall i | 0 <= i < |s| ensures InRanges(ranges, s[i]) { assert i > 0 ==> s[i] == s[1..][i - 1]; }
      }
    }
  }

  lemma PlusOneIs(ranges: seq<(char, char)>, s: string)
    ensures Match(Plus(One(ranges)), s) <==> s != "" && AllIn(ranges, s)
  {
    if s != "" && AllIn(ranges, s) {
      assert s[..1] == [s[0]];
      ManyOneIs(ranges, s[1..]);
      assert Match(One(ranges), s[..1]) && Match(Many(One(ranges)), s[1..]);
    }
    if Match(Plus(One(ranges)), s) {
      var k :| 0 <= k <= |s| && Match(One(ranges), s[..k]) && Match(Many(One(ranges)), s[k..]);
      ManyOneIs(ranges, s[k..]);
      assert k == 1 && s[..k][0] == s[0];
      forall i | 0 <= i < |s| ensures InRanges(ranges, s[i]) { assert i > 0 ==> s[i] == s[1..][i - 1]; }
    }
  }

  /** One character ahead of a pattern. */
  lemma OneThenIs(ranges: seq<(char, char)>, q: Pattern, s: string)
    ensures Match(Then(One(ranges), q), s) <==> s != "" && InRanges(ranges, s[0]) && Match(q, s[1..])
  {
    if s != "" && InRanges(ranges, s[0]) && Match(q, s[1..]) {
      assert s[..1] == [s[0]];
      assert Match(One(ranges), s[..1]) && Match(q, s[1..]);
    }
    if Match(Then(One(ranges), q), s) {
      var k :| 0 <= k <= |s| && Match(One(ranges), s[..k]) && Match(q, s[k..]);
      assert k == 1 && s[..k][0] == s[0];
    }
  }

  // ---- key segments -----------------------------------------------------------------

  const WORD_CHAR := [('a', 'z'), ('0', '9')]

  /** `[a-z0-9]+(?:-[a-z0-9]+)*` */
  const SEGMENT := Then(Plus(One(WORD_CHAR)), DASHED_WORDS)

  const DASHED_WORDS := Many(Then(Just('-'), Plus(One(WORD_CHAR))))

  predicate IsKeyWord(s: string) {
    s != "" && AllSegmentChars(s)
  }

  predicate IsTail(s: string) {
    s == "" || (s[0] == '-' && ValidSegment(s[1..]))
  }

  lemma WordPattern(s: string)
    ensures Match(Plus(One(WORD_CHAR)), s) <==> IsKeyWord(s)
  {
    PlusOneIs(WORD_CHAR, s);
    forall c: char ensures InRanges(WORD_CHAR, c) <==> IsSegmentChar(c) {
      assert WORD_CHAR[0] == ('a', 'z') && WORD_CHAR[1] == ('0', '9');
    }
  }

  lemma NoDashInWord(s: string)
    requires AllSegmentChars(s)
    ensures '-' !in s
  {
  }

  lemma WordThenTail(word: string, tail: string)
    requires IsKeyWord(word) && IsTail(tail)
    ensures ValidSegment(word + tail)
  {
    NoDashInWord(word);
    SplitFirst(word, if tail == "" then "" else tail[1..], '-');
    if tail == "" { assert word + tail == word; } else { assert word + tail == word + ['-'] + tail[1..]; }
  }

  lemma TailAfterWord(s: string) returns (word: string, tail: string)
    requires ValidSegment(s)
    ensures s == word + tail && IsKeyWord(word) && IsTail(tail)
  {
    var pieces := Split(s, '-');
    JoinSplit(s, '-');
    SplitParts(s, '-');
    word := pieces[0];
    if |pieces| == 1 {
      tail := "";
    } else {
      tail := ['-'] + Join(pieces[1..], '-');
      SplitJoin(pieces[1..], '-');
      assert tail[1..] == Join(pieces[1..], '-');
      assert s == word + tail;
    }
  }

  lemma DashedWord(s: string)
    ensures Match(Then(Just('-'), Plus(One(WORD_CHAR))), s) <==> s != "" && s[0] == '-' && IsKeyWord(s[1..])
  {
    OneThenIs([('-', '-')], Plus(One(WORD_CHAR)), s);
    assert [('-', '-')][0] == ('-', '-');
    if s != "" { WordPattern(s[1..]); }
  }

  lemma {:induction false} DashedWordsAre(s: string)
    ensures Match(DASHED_WORDS, s) <==> IsTail(s)
    decreases |s|
  {
    if s != "" && Match(DASHED_WORDS, s) {
      var k :| 1 <= k <= |s| && Match(Then(Just('-'), Plus(One(WORD_CHAR))), s[..k]) && Match(DASHED_WORDS, s[k..]);
      DashedWord(s[..k]);
      DashedWordsAre(s[k..]);
      WordThenTail(s[..k][1..], s[k..]);
      assert s[1..] == s[..k][1..] + s[k..];
    }
    if s != "" && IsTail(s) {
      var word, tail := TailAfterWord(s[1..]);
      var k := 1 + |word|;
      assert s == [s[0]] + s[1..];
      assert s[..k] == ['-'] + word && s[k..] == tail && s[..k][1..] == word;
      DashedWord(s[..k]);
      DashedWordsAre(tail);
    }
  }

  /** The test for a key segment is the service's expression. */
  lemma SegmentPattern(s: string)
    ensures Match(SEGMENT, s) <==> ValidSegment(s)
  {
    if Match(SEGMENT, s) {
      var k :| 0 <= k <= |s| && Match(Plus(One(WORD_CHAR)), s[..k]) && Match(DASHED_WORDS, s[k..]);
      WordPattern(s[..k]);
      DashedWordsAre(s[k..]);
      WordThenTail(s[..k], s[k..]);
      assert s == s[..k] + s[k..];
    }
    if ValidSegment(s) {
      var word, tail := TailAfterWord(s);
      assert s[..|word|] == word && s[|word|..] == tail;
      WordPattern(word);
      DashedWordsAre(tail);
    }
  }

  // ---- slots ------------------------------------------------------------------------

  const NAME_START := [('a', 'z'), ('_', '_')]
  const NAME_CHAR := [('a', 'z'), ('0', '9'), ('_', '_')]

  /** `\{([a-z_][a-z0-9_]*)\}` */
  const SLOT := Then(Just('{'), Then(One(NAME_START), SLOT_END))

  const SLOT_END := Then(Many(One(NAME_CHAR)), Just('}'))

  lemma NameCharsAre(c: char)
    ensures InRanges(NAME_START, c) <==> c == '_' || 'a' <= c <= 'z'
    ensures InRanges(NAME_CHAR, c) <==> IsSlotNameChar(c)
  {
    assert NAME_START[0] == ('a', 'z') && NAME_START[1] == ('_', '_');
    assert NAME_CHAR[0] == ('a', 'z') && NAME_CHAR[1] == ('0', '9') && NAME_CHAR[2] == ('_', '_');
  }

  lemma SlotEndIs(s: string)
    ensures Match(SLOT_END, s)
            <==> s != "" && s[|s| - 1] == '}' && forall i :: 0 <= i < |s| - 1 ==> IsSlotNameChar(s[i])
  {
    forall c: char { NameCharsAre(c); }
    if Match(SLOT_END, s) {
      var k :| 0 <= k <= |s| && Match(Many(One(NAME_CHAR)), s[..k]) && Match(Just('}'), s[k..]);
      ManyOneIs(NAME_CHAR, s[..k]);
      JustIs('}', s[k..]);
      assert s == s[..k] + ['}'];
      forall i | 0 <= i < |s| - 1 ensures IsSlotNameChar(s[i]) { assert InRanges(NAME_CHAR, s[..k][i]); }
    }
    if s != "" && s[|s| - 1] == '}' && forall i :: 0 <= i < |s| - 1 ==> IsSlotNameChar(s[i]) {
      var k := |s| - 1;
      ManyOneIs(NAME_CHAR, s[..k]);
      JustIs('}', s[k..]);
      assert Match(Many(One(NAME_CHAR)), s[..k]) && Match(Just('}'), s[k..]);
    }
  }

  /** The test for a slot is the service's expression. */
  lemma SlotPattern(s: string)
    ensures Match(SLOT, s) <==> IsSlot(s)
  {
    OneThenIs([('{', '{')], Then(One(NAME_START), SLOT_END), s);
    assert [('{', '{')][0] == ('{', '{');
    if s != "" {
      OneThenIs(NAME_START, SLOT_END, s[1..]);
      if |s| > 1 {
        NameCharsAre(s[1]);
        SlotEndIs(s[1..][1..]);
        SlotParts(s);
      }
    }
  }

  lemma SlotParts(s: string)
    requires |s| > 1
    ensures IsSlot(s)
            <==> var end := s[1..][1..];
                 && s[0] == '{' && (s[1] == '_' || 'a' <= s[1] <= 'z')
                 && end != "" && end[|end| - 1] == '}' && forall i :: 0 <= i < |end| - 1 ==> IsSlotNameChar(end[i])
  {
    var end := s[1..][1..];
    if |s| >= 3 {
      var name := s[1..|s| - 1];
      assert end[|end| - 1] == s[|s| - 1];
      assert name[0] == s[1];
      forall i | 1 <= i < |name| ensures name[i] == end[i - 1] {}
      if forall i :: 0 <= i < |end| - 1 ==> IsSlotNameChar(end[i]) {
        forall i | 1 <= i < |name| ensures IsSlotNameChar(name[i]) { assert name[i] == end[i - 1]; }
      }
      if IsSlotName(name) {
        forall i | 0 <= i < |end| - 1 ensures IsSlotNameChar(end[i]) { assert end[i] == name[i + 1]; }
      }
    }
  }

  // ---- partition names --------------------------------------------------------------

  const DIGIT := [('0', '9')]

  /** The text, and then the pattern. */
  function After(text: string, p: Pattern): Pattern {
    if text == "" then p else Then(Just(text[0]), After(text[1..], p))
  }

  /** `^l4_raw_events_(\d{4})_(\d{2})$` */
  const PARTITION := After("l4_raw_events_", Then(One(DIGIT), THREE_MORE))

  const THREE_MORE := Then(One(DIGIT), TWO_MORE)

  const TWO_MORE := Then(One(DIGIT), ONE_MORE)

  const ONE_MORE := Then(One(DIGIT), MONTH_PART)

  const MONTH_PART := Then(Just('_'), Then(One(DIGIT), One(DIGIT)))

  lemma {:induction false} AfterIs(text: string, p: Pattern, s: string)
    ensures Match(After(text, p), s) <==> text <= s && Match(p, s[|text|..])
  {
    if text == "" {
      assert s[0..] == s;
    } else {
      OneThenIs([(text[0], text[0])], After(text[1..], p), s);
      assert [(text[0], text[0])][0] == (text[0], text[0]);
      if s != "" {
        AfterIs(text[1..], p, s[1..]);
        assert s == [s[0]] + s[1..] && text == [text[0]] + text[1..];
        if text <= s { assert s[1..][|text| - 1..] == s[|text|..]; }
        if s[0] == text[0] && text[1..] <= s[1..] { assert s[1..][|text| - 1..] == s[|text|..]; }
      }
    }
  }

  lemma DigitIs(c: char)
    ensures InRanges(DIGIT, c) <==> IsDigit(c)
  {
    assert DIGIT[0] == ('0', '9');
  }

  lemma MonthPartIs(s: string)
    ensures Match(MONTH_PART, s) <==> |s| == 3 && s[0] == '_' && IsDigit(s[1]) && IsDigit(s[2])
  {
    OneThenIs([('_', '_')], Then(One(DIGIT), One(DIGIT)), s);
    assert [('_', '_')][0] == ('_', '_');
    if s != "" {
      OneThenIs(DIGIT, One(DIGIT), s[1..]);
      if |s| > 1 { DigitIs(s[1]); }
      if |s| > 2 { DigitIs(s[2]); }
    }
  }

  lemma DigitThenIs(q: Pattern, s: string)
    ensures Match(Then(One(DIGIT), q), s) <==> s != "" && IsDigit(s[0]) && Match(q, s[1..])
  {
    OneThenIs(DIGIT, q, s);
    if s != "" { DigitIs(s[0]); }
  }

  lemma YearAndMonthAre(s: string)
    ensures Match(Then(One(DIGIT), THREE_MORE), s)
            <==> |s| == 7 && IsDigit(s[0]) && IsDigit(s[1]) && IsDigit(s[2]) && IsDigit(s[3])
                 && s[4] == '_' && IsDigit(s[5]) && IsDigit(s[6])
  {
    DigitThenIs(THREE_MORE, s);
    if |s| > 0 { DigitThenIs(TWO_MORE, s[1..]); }
    if |s| > 1 { DigitThenIs(ONE_MORE, s[2..]); assert s[1..][1..] == s[2..]; }
    if |s| > 2 { DigitThenIs(MONTH_PART, s[3..]); assert s[2..][1..] == s[3..]; }
    if |s| > 3 { MonthPartIs(s[4..]); assert s[3..][1..] == s[4..]; }
  }

  /** A partition is read from exactly the names that the service's expression matches. */
  lemma PartitionPattern(name: string)
    ensures Match(PARTITION, name) <==> MatchName(name).Some?
  {
    AfterIs("l4_raw_events_", Then(One(DIGIT), THREE_MORE), name);
    if PREFIX <= name { YearAndMonthAre(name[14..]); }
  }
}
