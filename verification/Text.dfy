/** The string operations of the service: strip, split, join and lower-casing.
    A string is a sequence of code points. */
module Text {

  /** The code points for which `str.isspace` holds; `\s` in a pattern means the same set. */
  predicate IsSpace(c: char) {
    var n := c as int;
    || 9 <= n <= 13 || 28 <= n <= 32 || n == 133 || n == 160 || n == 0x1680
    || 0x2000 <= n <= 0x200a || n == 0x2028 || n == 0x2029 || n == 0x202f || n == 0x205f || n == 0x3000
  }

  const SPACES: seq<int> := [9, 10, 11, 12, 13, 28, 29, 30, 31, 32, 133, 160, 5760, 8192, 8193, 8194, 8195, 8196, 8197,
                             8198, 8199, 8200, 8201, 8202, 8232, 8233, 8239, 8287, 12288]

  /** These 29 code points and no others. */
  lemma SpacesAre(c: char)
    ensures IsSpace(c) <==> c as int in SPACES
  {
    if 9 <= c as int <= 13 { assert SPACES[c as int - 9] == c as int; }
    if 28 <= c as int <= 32 { assert SPACES[c as int - 23] == c as int; }
    if 8192 <= c as int <= 8202 { assert SPACES[c as int - 8179] == c as int; }
    assert SPACES[10] == 133 && SPACES[11] == 160 && SPACES[12] == 5760 && SPACES[24] == 8232 && SPACES[25] == 8233
           && SPACES[26] == 8239 && SPACES[27] == 8287 && SPACES[28] == 12288;
  }

  predicate AllSpace(s: string) {
    forall i :: 0 <= i < |s| ==> IsSpace(s[i])
  }

  function LStrip(s: string): (r: string)
    ensures r == "" || !IsSpace(r[0])
  {
    if s != "" && IsSpace(s[0]) then LStrip(s[1..]) else s
  }

  function RStrip(s: string): (r: string)
    ensures r <= s
    ensures r == "" || !IsSpace(r[|r| - 1])
  {
    if s != "" && IsSpace(s[|s| - 1]) then RStrip(s[..|s| - 1]) else s
  }

  /** `str.strip()` */
  function Strip(s: string): string {
    RStrip(LStrip(s))
  }

  predicate Trimmed(s: string) {
    s == "" || (!IsSpace(s[0]) && !IsSpace(s[|s| - 1]))
  }

  lemma {:induction false} StripIsTrimmed(s: string)
    ensures Trimmed(Strip(s))
  {
  }

  lemma StripTrimmed(s: string)
    requires Trimmed(s)
    ensures Strip(s) == s
  {
  }

  lemma StripFront(c: char, s: string)
    requires IsSpace(c)
    ensures Strip([c] + s) == Strip(s)
  {
    assert ([c] + s)[1..] == s;
  }

  lemma {:induction false} LStripBack(s: string, c: char)
    requires IsSpace(c)
    ensures LStrip(s + [c]) == if LStrip(s) == "" then "" else LStrip(s) + [c]
  {
    if s == "" {
      assert (s + [c])[1..] == "";
    } else {
      assert (s + [c])[1..] == s[1..] + [c];
      if IsSpace(s[0]) { LStripBack(s[1..], c); }
    }
  }

  lemma StripBack(s: string, c: char)
    requires IsSpace(c)
    ensures Strip(s + [c]) == Strip(s)
  {
    LStripBack(s, c);
    var t := LStrip(s);
    assert (t + [c])[..|t + [c]| - 1] == t;
  }

  /** Stripping only removes spaces, at the two ends. */
  lemma {:induction false} LStripSplits(s: string) returns (front: string)
    ensures s == front + LStrip(s) && AllSpace(front)
  {
    front := "";
    if s != "" && IsSpace(s[0]) {
      front := LStripSplits(s[1..]);
      front := [s[0]] + front;
    }
  }

  lemma {:induction false} RStripSplits(s: string) returns (back: string)
    ensures s == RStrip(s) + back && AllSpace(back)
  {
    back := "";
    if s != "" && IsSpace(s[|s| - 1]) {
      back := RStripSplits(s[..|s| - 1]);
      back := back + [s[|s| - 1]];
    }
  }

  lemma StripSplits(s: string) returns (front: string, back: string)
    ensures s == front + Strip(s) + back
    ensures AllSpace(front) && AllSpace(back)
  {
    front := LStripSplits(s);
    back := RStripSplits(LStrip(s));
  }

  predicate HasText(s: string) {
    exists i :: 0 <= i < |s| && !IsSpace(s[i])
  }

  /** What is left is the part between the spaces at the ends, and nothing else is. */
  lemma StripIs(front: string, s: string, back: string)
    requires AllSpace(front) && AllSpace(back) && Trimmed(s)
    ensures Strip(front + s + back) == s
    decreases |front| + |back|
  {
    if front != "" {
      assert front + s + back == [front[0]] + (front[1..] + s + back);
      StripIs(front[1..], s, back);
      StripFront(front[0], front[1..] + s + back);
    } else if back != "" {
      var k := |back| - 1;
      assert front + s + back == (front + s + back[..k]) + [back[k]];
      StripIs(front, s, back[..k]);
      StripBack(front + s + back[..k], back[k]);
    } else {
      assert front + s + back == s;
      StripTrimmed(s);
    }
  }

  lemma BlankIff(s: string)
    ensures Strip(s) != "" <==> HasText(s)
  {
    var front, back := StripSplits(s);
    var t := Strip(s);
    if t != "" {
      StripIsTrimmed(s);
      assert s[|front|] == t[0];
    } else {
      assert s == front + back;
    }
  }

  function LowerChar(c: char): char {
    if 'A' <= c <= 'Z' then (c as int + 32) as char else c
  }

  /** `str.lower()` on ASCII; other code points are left as they are. */
  function Lower(s: string): (r: string)
    ensures |r| == |s|
    ensures forall i :: 0 <= i < |s| ==> r[i] == LowerChar(s[i])
  {
    seq(|s|, i requires 0 <= i < |s| => LowerChar(s[i]))
  }

  // ---- split and join ---------------------------------------------------------------

  lemma LowerTrimmed(s: string)
    requires Trimmed(s)
    ensures Trimmed(Lower(s))
  {
  }

  /** `s.split(sep)` for a one-character separator; never empty. */
  function Split(s: string, sep: char): (parts: seq<string>)
    ensures |parts| >= 1
  {
    if s == "" then [""]
    else
      var rest := Split(s[1..], sep);
      if s[0] == sep then [""] + rest else [[s[0]] + rest[0]] + rest[1..]
  }

  /** `sep.join(parts)` */
  function Join(parts: seq<string>, sep: char): string {
    if |parts| == 0 then ""
    else if |parts| == 1 then parts[0]
    else parts[0] + [sep] + Join(parts[1..], sep)
  }

  lemma {:induction false} JoinSplit(s: string, sep: char)
    ensures Join(Split(s, sep), sep) == s
  {
    if s != "" {
      JoinSplit(s[1..], sep);
      var rest := Split(s[1..], sep);
      var parts := Split(s, sep);
      if s[0] == sep {
        assert parts[1..] == rest;
      } else {
        assert parts[1..] == rest[1..];
        assert |rest| > 1 ==> Join(parts, sep) == [s[0]] + (rest[0] + [sep] + Join(rest[1..], sep));
      }
      assert s == [s[0]] + s[1..];
    }
  }

  lemma {:induction false} SplitParts(s: string, sep: char)
    ensures forall i :: 0 <= i < |Split(s, sep)| ==> sep !in Split(s, sep)[i]
  {
    if s != "" {
      SplitParts(s[1..], sep);
      var rest := Split(s[1..], sep);
      var parts := Split(s, sep);
      forall i | 0 <= i < |parts| ensures sep !in parts[i] {
        if s[0] == sep {
          if i > 0 { assert parts[i] == rest[i - 1]; }
        } else if i > 0 {
          assert parts[i] == rest[i];
        }
      }
    }
  }

  lemma {:induction false} SplitFirst(a: string, b: string, sep: char)
    requires sep !in a
    ensures Split(a, sep) == [a]
    ensures Split(a + [sep] + b, sep) == [a] + Split(b, sep)
  {
    var s := a + [sep] + b;
    if a == "" {
      assert s[1..] == b;
    } else {
      assert s[1..] == a[1..] + [sep] + b;
      assert a == [a[0]] + a[1..];
      SplitFirst(a[1..], b, sep);
    }
  }

  lemma {:induction false} SplitJoin(parts: seq<string>, sep: char)
    requires |parts| > 0
    requires forall i :: 0 <= i < |parts| ==> sep !in parts[i]
    ensures Split(Join(parts, sep), sep) == parts
  {
    if |parts| == 1 {
      SplitFirst(parts[0], "", sep);
    } else {
      SplitJoin(parts[1..], sep);
      SplitFirst(parts[0], Join(parts[1..], sep), sep);
    }
  }

  lemma JoinCons(head: string, tail: seq<string>, sep: char)
    requires |tail| > 0
    ensures Join([head] + tail, sep) == head + [sep] + Join(tail, sep)
  {
    assert ([head] + tail)[1..] == tail;
  }

  lemma JoinLonger(c: char, parts: seq<string>, sep: char)
    requires |parts| > 0
    ensures Join([[c] + parts[0]] + parts[1..], sep) == [c] + Join(parts, sep)
  {
    var rest := parts[1..];
    if rest == [] {
      assert [[c] + parts[0]] + rest == [[c] + parts[0]];
    } else {
      JoinCons([c] + parts[0], rest, sep);
      assert ([c] + parts[0]) + [sep] + Join(rest, sep) == [c] + (parts[0] + [sep] + Join(rest, sep));
    }
  }
}
