/** The excerpt under a heading (extract_section_text,
    extractor1B.py:35-51): find the heading in the page text without regard
    to case, then collect the stripped lines after the one holding the
    match until a blank line, a short line with no lower-case letter, or
    700 characters. */
module Excerpt {
  import opened Text

  /** The excerpt stops growing once its joined length exceeds this. */
  const EXCERPT_CAP: nat := 700

  /** A line without lower-case letters counts as a heading below this length. */
  const SHORT_LINE: nat := 100

  /** The line boundaries of str.splitlines(). */
  predicate IsLineBreak(c: char) {
    c == '\n' || c == '\r' || c as int == 0x0B || c as int == 0x0C || c as int == 0x1C
    || c as int == 0x1D || c as int == 0x1E || c as int == 0x85 || c as int == 0x2028 || c as int == 0x2029
  }

  /** The first line boundary at or after i, or |s|. */
  function BreakAt(s: string, i: nat): (j: nat)
    requires i <= |s|
    ensures i <= j <= |s| && (j < |s| ==> IsLineBreak(s[j]))
    ensures forall k | i <= k < j :: !IsLineBreak(s[k])
    decreases |s| - i
  {
    if i == |s| || IsLineBreak(s[i]) then i else BreakAt(s, i + 1)
  }

  predicate NoBreak(s: string) { forall k | 0 <= k < |s| :: !IsLineBreak(s[k]) }

  /** str.splitlines(): "\r\n" is one boundary, and a boundary at the very end
      does not start another line. */
  function SplitLines(s: string): (r: seq<string>)
    ensures forall k | 0 <= k < |r| :: NoBreak(r[k])
    ensures s == [] <==> r == []
    decreases |s|
  {
    if s == [] then []
    else
      var i := BreakAt(s, 0);
      if i == |s| then [s]
      else
        var next := if s[i] == '\r' && i + 1 < |s| && s[i + 1] == '\n' then i + 2 else i + 1;
        [s[..i]] + SplitLines(s[next..])
  }

  lemma {:induction false} JoinCons(sep: string, a: string, rest: seq<string>)
    requires rest != []
    ensures Join(sep, [a] + rest) == a + sep + Join(sep, rest)
    decreases |rest|
  {
    var parts := [a] + rest;
    if |rest| > 1 {
      var init := rest[..|rest| - 1];
      assert parts[..|parts| - 1] == [a] + init;
      JoinCons(sep, a, init);
    } else {
      assert parts[..1] == [a];
    }
  }

  /** "\n" is the only line boundary in s. */
  predicate OnlyNewlines(s: string) {
    forall k | 0 <= k < |s| :: IsLineBreak(s[k]) ==> s[k] == '\n'
  }

  /** Joining the lines of a text whose only boundaries are "\n" gives the
      text back, up to a final "\n". */
  lemma {:induction false} SplitLinesJoin(s: string)
    requires OnlyNewlines(s)
    ensures Join("\n", SplitLines(s)) + (if s != [] && s[|s| - 1] == '\n' then "\n" else "") == s
    decreases |s|
  {
    if s != [] {
      var i := BreakAt(s, 0);
      if i < |s| {
        SplitLinesNewline(s, i);
        SplitLinesJoin(s[i + 1..]);
        SplitLinesJoinStep(s, i, SplitLines(s[i + 1..]));
      } else {
        assert SplitLines(s) == [s];
        assert !IsLineBreak(s[|s| - 1]);
      }
    }
  }

  /** A text whose first boundary is the "\n" at i: its first line, then the
      lines of the rest. */
  lemma SplitLinesNewline(s: string, i: nat)
    requires OnlyNewlines(s)
    requires s != [] && i == BreakAt(s, 0) && i < |s|
    ensures s[i] == '\n'
    ensures SplitLines(s) == [s[..i]] + SplitLines(s[i + 1..])
    ensures OnlyNewlines(s[i + 1..])
  {
    var tail := s[i + 1..];
    assert forall k | 0 <= k < |tail| :: tail[k] == s[i + 1 + k];
    assert s[i] == '\n' && s[i] != '\r';
  }

  /** The step of SplitLinesJoin: one more line in front. */
  lemma SplitLinesJoinStep(s: string, i: nat, rest: seq<string>)
    requires i < |s| && s[i] == '\n'
    requires var tail := s[i + 1..];
      Join("\n", rest) + (if tail != [] && tail[|tail| - 1] == '\n' then "\n" else "") == tail
    requires s[i + 1..] == [] <==> rest == []
    ensures Join("\n", [s[..i]] + rest) + (if s[|s| - 1] == '\n' then "\n" else "") == s
  {
    var tail := s[i + 1..];
    assert s == s[..i] + "\n" + tail;
    if tail == [] {
      assert [s[..i]] + rest == [s[..i]];
    } else {
      JoinCons("\n", s[..i], rest);
      assert s[|s| - 1] == tail[|tail| - 1];
    }
  }

  /** The loop stops at a blank line or at a short line with no lower-case
      letter, that is one equal to its upper-case form (Text.UpperFixed). */
  predicate StopsExcerpt(s: string) {
    s == [] || (LowerCount(s) == 0 && |s| < SHORT_LINE)
  }

  /** The paragraph joined by spaces is longer than the cap. */
  predicate OverCap(para: seq<string>) {
    |Join(" ", para)| > EXCERPT_CAP
  }

  /** The paragraph the loop has when it ends, having collected `para` and
      having `lines` still to read. */
  function Excerpt(lines: seq<string>, para: seq<string>): seq<string>
    decreases |lines|
  {
    if lines == [] then para
    else
      var s := Strip(lines[0]);
      if StopsExcerpt(s) then para
      else if OverCap(para + [s]) then para + [s]
      else Excerpt(lines[1..], para + [s])
  }

  /** The lines after the one holding the match, when the heading occurs. */
  function LinesAfter(text: string, heading: string): seq<string> {
    var idx := Find(Lower(text), Lower(heading));
    if idx == -1 then []
    else
      var lines := SplitLines(text[idx..]);
      if lines == [] then [] else lines[1..]
  }

  /** What extract_section_text returns for the text of the page. */
  function SectionText(text: string, heading: string): string {
    if Find(Lower(text), Lower(heading)) == -1 then ""
    else Strip(Join(" ", Excerpt(LinesAfter(text, heading), [])))
  }

  /** extract_section_text over the text of the page. */
  method ExtractSectionText(text: string, heading: string) returns (r: string)
    ensures r == SectionText(text, heading)
    ensures !Contains(Lower(text), Lower(heading)) ==> r == ""
  {
    var idx := Find(Lower(text), Lower(heading));
    if idx == -1 {
      return "";
    }
    var lines := SplitLines(text[idx..]);
    var rest := if lines == [] then [] else lines[1..];
    assert rest == LinesAfter(text, heading);
    var para: seq<string> := [];
    var i := 0;
    while i < |rest|
      invariant 0 <= i <= |rest|
      invariant Excerpt(rest[i..], para) == Excerpt(rest, [])
      decreases |rest| - i
    {
      assert rest[i..][0] == rest[i];
      var s := Strip(rest[i]);
      UpperFixed(s);
      if s == [] || (s == Upper(s) && |s| < SHORT_LINE) {
        assert para == Excerpt(rest, []);
        break;
      }
      para := para + [s];
      if OverCap(para) {
        assert para == Excerpt(rest, []);
        break;
      }
      assert rest[i..][1..] == rest[i + 1..];
      i := i + 1;
    }
    assert para == Excerpt(rest, []);
    r := Strip(Join(" ", para));
  }

  /** `p` is `para` followed by stripped lines taken in order from the
      start of `lines`, none of them a stopping line. */
  predicate TakesStripped(lines: seq<string>, para: seq<string>, p: seq<string>) {
    && |para| <= |p| <= |para| + |lines|
    && p[..|para|] == para
    && (forall i | |para| <= i < |p| :: p[i] == Strip(lines[i - |para|]) && !StopsExcerpt(p[i]))
  }

  /** What the loop adds to `para`: stripped lines in order, none of them a
      stopping line. */
  lemma {:induction false} ExcerptLines(lines: seq<string>, para: seq<string>)
    ensures TakesStripped(lines, para, Excerpt(lines, para))
    decreases |lines|
  {
    if lines != [] {
      var s := Strip(lines[0]);
      var next := para + [s];
      if !StopsExcerpt(s) && !OverCap(next) {
        assert Excerpt(lines, para) == Excerpt(lines[1..], next);
        ExcerptLines(lines[1..], next);
        var p := Excerpt(lines[1..], next);
        assert p[..|para|] == p[..|next|][..|para|];
        forall i | |para| <= i < |p| ensures p[i] == Strip(lines[i - |para|]) && !StopsExcerpt(p[i]) {
          if i == |para| {
            assert p[i] == p[..|next|][i];
          } else {
            assert lines[1..][i - |next|] == lines[i - |para|];
          }
        }
      }
    }
  }

  /** The loop only ever appends to `para`. */
  lemma {:induction false} ExcerptExtends(lines: seq<string>, para: seq<string>)
    ensures |para| <= |Excerpt(lines, para)| && Excerpt(lines, para)[..|para|] == para
    decreases |lines|
  {
    if lines != [] {
      var next := para + [Strip(lines[0])];
      assert next[..|para|] == para;
      if !StopsExcerpt(Strip(lines[0])) && !OverCap(next) {
        ExcerptExtends(lines[1..], next);
        var p := Excerpt(lines[1..], next);
        assert p[..|para|] == p[..|next|][..|para|];
      }
    }
  }

  /** Only the last line the loop adds can take the joined length past the cap. */
  lemma {:induction false} ExcerptUnderCap(lines: seq<string>, para: seq<string>)
    requires !OverCap(para)
    ensures |Excerpt(lines, para)| > |para| ==>
      !OverCap(Excerpt(lines, para)[..|Excerpt(lines, para)| - 1])
    decreases |lines|
  {
    if lines == [] {
      assert Excerpt(lines, para) == para;
    } else {
      var s := Strip(lines[0]);
      var next := para + [s];
      if StopsExcerpt(s) {
        assert Excerpt(lines, para) == para;
      } else if OverCap(next) {
        assert Excerpt(lines, para) == next;
        assert next[..|next| - 1] == para;
      } else {
        assert Excerpt(lines, para) == Excerpt(lines[1..], next);
        ExcerptUnderCap(lines[1..], next);
        ExcerptExtends(lines[1..], next);
        var p := Excerpt(lines[1..], next);
        if |p| == |next| {
          assert p == p[..|next|] == next;
          assert next[..|next| - 1] == para;
        }
      }
    }
  }

  /** The loop ends only at a stopping line, past the cap, or at the end of
      the lines. */
  lemma {:induction false} ExcerptStops(lines: seq<string>, para: seq<string>)
    ensures |para| <= |Excerpt(lines, para)|
    ensures |Excerpt(lines, para)| - |para| < |lines| ==>
      StopsExcerpt(Strip(lines[|Excerpt(lines, para)| - |para|])) || OverCap(Excerpt(lines, para))
    decreases |lines|
  {
    ExcerptExtends(lines, para);
    if lines == [] {
    } else {
      var s := Strip(lines[0]);
      var next := para + [s];
      if StopsExcerpt(s) {
        assert Excerpt(lines, para) == para;
      } else if OverCap(next) {
        assert Excerpt(lines, para) == next;
      } else {
        assert Excerpt(lines, para) == Excerpt(lines[1..], next);
        ExcerptStops(lines[1..], next);
        var p := Excerpt(lines[1..], next);
        var k := |p| - |para|;
        if k < |lines| {
          assert k - 1 == |p| - |next|;
          assert lines[1..][k - 1] == lines[k];
        }
      }
    }
  }

  /** The excerpt proper: the stripped lines after the heading's line, in
      order and none of them a stopping line; only the last can take the
      joined length past the cap; and the next line, if any, stops the loop
      unless the cap was passed. */
  predicate IsExcerpt(lines: seq<string>, p: seq<string>) {
    && TakesStripped(lines, [], p)
    && (p != [] ==> !OverCap(p[..|p| - 1]))
    && (|p| < |lines| ==> StopsExcerpt(Strip(lines[|p|])) || OverCap(p))
  }

  lemma ExcerptShape(lines: seq<string>)
    ensures IsExcerpt(lines, Excerpt(lines, []))
  {
    ExcerptLines(lines, []);
    ExcerptUnderCap(lines, []);
    ExcerptStops(lines, []);
  }

  /** Of two paragraphs that both read as an excerpt of the lines, neither
      is shorter: the shorter one would have to stop at a line the longer
      one takes, or pass the cap the longer one stays under. */
  lemma ExcerptNotShorter(lines: seq<string>, p: seq<string>, q: seq<string>)
    requires IsExcerpt(lines, p) && IsExcerpt(lines, q)
    ensures |p| <= |q|
  {
    if |q| < |p| {
      assert p[|q|] == Strip(lines[|q|]) && !StopsExcerpt(p[|q|]);
      assert q == p[..|p| - 1][..|q|];
      JoinPrefixShorter(" ", p[..|p| - 1], |q|);
    }
  }

  /** The excerpt is the only paragraph that reads as one: IsExcerpt
      determines what the loop returns. */
  lemma ExcerptUnique(lines: seq<string>, p: seq<string>)
    requires IsExcerpt(lines, p)
    ensures p == Excerpt(lines, [])
  {
    var q := Excerpt(lines, []);
    ExcerptShape(lines);
    ExcerptNotShorter(lines, p, q);
    ExcerptNotShorter(lines, q, p);
  }
}
