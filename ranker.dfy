/** Candidate sections of one travel-planning document and their importance
    (extract_headings and assign_importance, extractor1B.py:7-32 and 53-65):
    every line of 7 to 89 characters that is neither all lower case nor all
    digits is a candidate, the candidates are ordered from the largest font
    down, a text is kept only the first time it occurs, and a title is ranked
    by the first group of keywords it mentions. */
module Ranker {
  import opened Text
  import opened Layout
  import opened Classify
  import opened Sorting
  import opened Seqs

  /** A candidate section: its stripped text, its page (from 1) and the
      largest font size among the spans of its line. */
  datatype Heading = Heading(text: string, page: int, size: int)

  /** The rank assign_importance gives a title that mentions no keyword. */
  const FALLBACK_RANK: int := 10

  /** The spans' texts, each stripped. */
  function StrippedTexts(spans: seq<Span>): seq<string> {
    seq(|spans|, i requires 0 <= i < |spans| => Strip(spans[i].text))
  }

  function Sizes(spans: seq<Span>): seq<int> {
    seq(|spans|, i requires 0 <= i < |spans| => spans[i].size)
  }

  /** " ".join(span["text"].strip() for span in line["spans"]) */
  function LineText(line: Line): string {
    Join(" ", StrippedTexts(line.spans))
  }

  /** 6 < len(line_text) < 90 and not line_text.islower() and not line_text.isdigit() */
  predicate IsCandidate(t: string) {
    6 < |t| < 90 && !IsLowerStr(t) && !IsDigitStr(t)
  }

  /** The heading a line of the given page contributes, if any. A line long
      enough to pass has at least one span, so max() has something to take. */
  function LineHeading(line: Line, page: int): Option<Heading> {
    var t := LineText(line);
    if IsCandidate(t) then
      assert line.spans != [];
      Some(Heading(Strip(t), page, Max(Sizes(line.spans))))
    else None
  }

  /** A line contributes a heading exactly when its joined text passes the
      filter; the heading holds that text stripped, fewer than 90 characters,
      and the largest size among the line's spans. */
  lemma LineHeadingSpec(line: Line, page: int)
    ensures LineHeading(line, page).Some? <==> IsCandidate(LineText(line))
    ensures LineHeading(line, page).Some? ==>
      && LineHeading(line, page).value.page == page
      && LineHeading(line, page).value.text == Strip(LineText(line))
      && |LineHeading(line, page).value.text| < 90
      && (exists i | 0 <= i < |line.spans| :: line.spans[i].size == LineHeading(line, page).value.size)
      && (forall i | 0 <= i < |line.spans| :: line.spans[i].size <= LineHeading(line, page).value.size)
  {
    if IsCandidate(LineText(line)) {
      var sizes := Sizes(line.spans);
      var m := Max(sizes);
      assert m in sizes;
      var i :| 0 <= i < |sizes| && sizes[i] == m;
      assert line.spans[i].size == m;
      assert LineHeading(line, page) == Some(Heading(Strip(LineText(line)), page, m));
      forall j | 0 <= j < |line.spans| ensures line.spans[j].size <= m {
        assert sizes[j] == line.spans[j].size;
      }
    }
  }

  /** The heading each line of the given page contributes. */
  function HeadingOf(page: int): Line -> Option<Heading> {
    line => LineHeading(line, page)
  }

  /** The headings of the lines of one page, in order. */
  function LinesHeadings(lines: seq<Line>, page: int): seq<Heading> {
    FilterMap(lines, HeadingOf(page))
  }

  /** The headings of every page, before sorting; page k (from 0) is page k + 1. */
  function DocCandidates(doc: Document): seq<Heading>
    decreases |doc|
  {
    if doc == [] then []
    else DocCandidates(doc[..|doc| - 1]) + LinesHeadings(doc[|doc| - 1].lines, |doc|)
  }

  /** A heading is among those of a page exactly when some line of the page
      contributes it, and it then carries the page's number. */
  lemma LinesHeadingsSpec(lines: seq<Line>, page: int)
    ensures forall h :: h in LinesHeadings(lines, page) <==>
      exists k | 0 <= k < |lines| :: LineHeading(lines[k], page) == Some(h)
    ensures forall h | h in LinesHeadings(lines, page) :: h.page == page
  {
    FilterMapSpec(lines, HeadingOf(page));
    forall h | h in LinesHeadings(lines, page) ensures h.page == page {
      var k :| 0 <= k < |lines| && LineHeading(lines[k], page) == Some(h);
    }
  }

  /** The heading comes from a line of its own page. */
  predicate FromLine(doc: Document, h: Heading) {
    1 <= h.page <= |doc| && h in LinesHeadings(doc[h.page - 1].lines, h.page)
  }

  /** The candidates are exactly the headings the lines of the pages
      contribute. */
  lemma {:induction false} DocCandidatesSpec(doc: Document)
    ensures forall h :: h in DocCandidates(doc) <==> FromLine(doc, h)
    decreases |doc|
  {
    if doc != [] {
      var init := doc[..|doc| - 1];
      DocCandidatesSpec(init);
      LinesHeadingsSpec(doc[|doc| - 1].lines, |doc|);
      forall h ensures h in DocCandidates(doc) <==> FromLine(doc, h) {
        if h in DocCandidates(doc) && h in DocCandidates(init) {
          assert FromLine(init, h);
          assert doc[h.page - 1] == init[h.page - 1];
        }
        if FromLine(doc, h) && h.page < |doc| {
          assert doc[h.page - 1] == init[h.page - 1];
          assert FromLine(init, h);
        }
      }
    }
  }

  // ---- Sorting and de-duplication ----

  /** (-size, page): the largest font first, then the earliest page. */
  function Priority(h: Heading): Key { (-h.size, h.page) }

  function Texts(hs: seq<Heading>): seq<string> {
    seq(|hs|, i requires 0 <= i < |hs| => hs[i].text)
  }

  /** The loop over the sorted headings: a heading is kept when no heading
      kept before has its text. */
  function DedupText(hs: seq<Heading>): seq<Heading>
    decreases |hs|
  {
    if hs == [] then []
    else
      var d := DedupText(hs[..|hs| - 1]);
      if hs[|hs| - 1].text in Texts(d) then d else d + [hs[|hs| - 1]]
  }

  /** What extract_headings returns. */
  function Headings(doc: Document): seq<Heading> {
    DedupText(SortBy(DocCandidates(doc), Priority))
  }

  predicate DistinctTexts(hs: seq<Heading>) {
    forall i, j | 0 <= i < j < |hs| :: hs[i].text != hs[j].text
  }

  /** De-duplication keeps headings of the input, one per text, and every
      text of the input survives. */
  lemma {:induction false} DedupTextSpec(hs: seq<Heading>)
    ensures forall i | 0 <= i < |DedupText(hs)| :: DedupText(hs)[i] in hs
    ensures DistinctTexts(DedupText(hs))
    ensures forall h | h in hs :: h.text in Texts(DedupText(hs))
    decreases |hs|
  {
    if hs != [] {
      var init := hs[..|hs| - 1];
      var x := hs[|hs| - 1];
      DedupTextSpec(init);
      var d := DedupText(init);
      assert hs == init + [x];
      forall i | 0 <= i < |DedupText(hs)| ensures DedupText(hs)[i] in hs {
        if i < |d| {
          assert DedupText(hs)[i] == d[i];
        }
      }
      if x.text !in Texts(d) {
        var r := d + [x];
        forall i, j | 0 <= i < j < |r| ensures r[i].text != r[j].text {
          if j == |d| {
            assert r[i].text == Texts(d)[i];
          }
        }
        forall h | h in hs ensures h.text in Texts(r) {
          if h in init {
            var k :| 0 <= k < |d| && Texts(d)[k] == h.text;
            assert Texts(r)[k] == h.text;
          } else {
            assert Texts(r)[|d|] == x.text;
          }
        }
      }
    }
  }

  /** On input sorted by priority, every heading kept before the last one
      ranks no lower than it. */
  lemma KeptBeforeLast(hs: seq<Heading>, d: seq<Heading>)
    requires SortedBy(hs, Priority) && hs != [] && d == DedupText(hs[..|hs| - 1])
    ensures SortedBy(hs[..|hs| - 1], Priority)
    ensures forall i | 0 <= i < |d| :: KeyLe(Priority(d[i]), Priority(hs[|hs| - 1]))
  {
    var init := hs[..|hs| - 1];
    SortedInit(hs, Priority);
    DedupTextSpec(init);
    forall i | 0 <= i < |d| ensures KeyLe(Priority(d[i]), Priority(hs[|hs| - 1])) {
      var k :| 0 <= k < |init| && init[k] == d[i];
    }
  }

  /** On input sorted by priority, de-duplication keeps the order. */
  lemma {:induction false} DedupTextSorted(hs: seq<Heading>)
    requires SortedBy(hs, Priority)
    ensures SortedBy(DedupText(hs), Priority)
    decreases |hs|
  {
    if hs != [] {
      var init := hs[..|hs| - 1];
      KeptBeforeLast(hs, DedupText(init));
      DedupTextSorted(init);
      if hs[|hs| - 1].text !in Texts(DedupText(init)) {
        SortedSnoc(DedupText(init), hs[|hs| - 1], Priority);
      }
    }
  }

  /** On input sorted by priority, the heading kept for a text has the best
      priority of all headings with that text: the largest font, then the
      earliest page. */
  lemma {:induction false} DedupTextBest(hs: seq<Heading>)
    requires SortedBy(hs, Priority)
    ensures forall i, c | 0 <= i < |DedupText(hs)| && c in hs && c.text == DedupText(hs)[i].text ::
      KeyLe(Priority(DedupText(hs)[i]), Priority(c))
    decreases |hs|
  {
    if hs != [] {
      var init := hs[..|hs| - 1];
      var x := hs[|hs| - 1];
      KeptBeforeLast(hs, DedupText(init));
      DedupTextBest(init);
      DedupTextSpec(init);
      var d := DedupText(init);
      assert hs == init + [x];
      var r := DedupText(hs);
      forall i, c | 0 <= i < |r| && c in hs && c.text == r[i].text
        ensures KeyLe(Priority(r[i]), Priority(c))
      {
        if i < |d| {
          assert r[i] == d[i];
          if c !in init {
            assert c == x;
          }
        } else {
          assert r[i] == x && x.text !in Texts(d);
        }
      }
    }
  }

  // ---- The extract_headings loops ----

  /** The loop over the lines of one page. */
  method PageHeadings(lines: seq<Line>, page: int) returns (hs: seq<Heading>)
    ensures hs == LinesHeadings(lines, page)
  {
    hs := [];
    for i := 0 to |lines|
      invariant hs == LinesHeadings(lines[..i], page)
    {
      FilterMapStep(lines, i, HeadingOf(page));
      var t := Join(" ", StrippedTexts(lines[i].spans));
      if 6 < |t| < 90 && !IsLowerStr(t) && !IsDigitStr(t) {
        var size := Max(Sizes(lines[i].spans));
        hs := hs + [Heading(Strip(t), page, size)];
      }
    }
    assert lines[..|lines|] == lines;
  }

  /** The loop over the pages. */
  method CollectCandidates(doc: Document) returns (hs: seq<Heading>)
    ensures hs == DocCandidates(doc)
  {
    hs := [];
    for p := 0 to |doc|
      invariant hs == DocCandidates(doc[..p])
    {
      assert doc[..p + 1][..p] == doc[..p];
      var page := PageHeadings(doc[p].lines, p + 1);
      hs := hs + page;
    }
    assert doc[..|doc|] == doc;
  }

  /** The loop that keeps the first heading of each text. */
  method DedupHeadings(hs: seq<Heading>) returns (deduped: seq<Heading>)
    ensures deduped == DedupText(hs)
  {
    deduped := [];
    var seen: set<string> := {};
    for i := 0 to |hs|
      invariant deduped == DedupText(hs[..i])
      invariant seen == set t | t in Texts(deduped)
    {
      assert hs[..i + 1][..i] == hs[..i];
      var t := hs[i].text;
      if t !in seen {
        deduped := deduped + [hs[i]];
        seen := seen + {t};
        assert Texts(deduped) == Texts(deduped[..|deduped| - 1]) + [t];
      }
    }
    assert hs[..|hs|] == hs;
  }

  /** extract_headings */
  method ExtractHeadings(doc: Document) returns (headings: seq<Heading>)
    ensures headings == Headings(doc)
  {
    var candidates := CollectCandidates(doc);
    headings := DedupHeadings(SortBy(candidates, Priority));
  }

  /** The headings come from lines of the document, one per text, ordered
      from the largest font down and then by page; every candidate text is
      present, with the best-placed heading that has it. */
  lemma HeadingsSpec(doc: Document)
    ensures forall i | 0 <= i < |Headings(doc)| :: FromLine(doc, Headings(doc)[i])
    ensures DistinctTexts(Headings(doc))
    ensures SortedBy(Headings(doc), Priority)
    ensures forall h | FromLine(doc, h) :: h.text in Texts(Headings(doc))
    ensures forall i, c | 0 <= i < |Headings(doc)| && FromLine(doc, c) && c.text == Headings(doc)[i].text ::
      KeyLe(Priority(Headings(doc)[i]), Priority(c))
  {
    var cands := DocCandidates(doc);
    var sorted := SortBy(cands, Priority);
    DocCandidatesSpec(doc);
    SortBySorted(cands, Priority);
    SortByPermutes(cands, Priority);
    assert forall h :: h in sorted <==> h in cands by {
      forall h ensures h in sorted <==> h in cands {
        assert h in sorted <==> h in multiset(sorted);
      }
    }
    DedupTextSpec(sorted);
    DedupTextSorted(sorted);
    DedupTextBest(sorted);
  }

  /** Every heading is on a page of the document. */
  lemma HeadingsPages(doc: Document)
    ensures forall i | 0 <= i < |Headings(doc)| :: 1 <= Headings(doc)[i].page <= |doc|
  {
    HeadingsSpec(doc);
  }

  // ---- assign_importance ----

  const GUIDE_WORDS: seq<string> := ["guide", "major cities", "overview"]
  const ACTIVITY_WORDS: seq<string> := ["things to do", "coastal adventure", "activities"]
  const FOOD_WORDS: seq<string> := ["cuisine", "culinary", "wine"]
  const TIPS_WORDS: seq<string> := ["tips", "tricks", "packing"]
  const NIGHTLIFE_WORDS: seq<string> := ["nightlife", "entertainment"]

  /** The keyword groups in the order they are tried; group g ranks g + 1. */
  const KEYWORD_GROUPS: seq<seq<string>> :=
    [GUIDE_WORDS, ACTIVITY_WORDS, FOOD_WORDS, TIPS_WORDS, NIGHTLIFE_WORDS]

  /** assign_importance: the chain of keyword tests on the lower-cased title. */
  function Importance(sectionTitle: string): (r: int)
    ensures 1 <= r <= |KEYWORD_GROUPS| || r == FALLBACK_RANK
  {
    var t := Lower(sectionTitle);
    if ContainsAny(t, GUIDE_WORDS) then 1
    else if ContainsAny(t, ACTIVITY_WORDS) then 2
    else if ContainsAny(t, FOOD_WORDS) then 3
    else if ContainsAny(t, TIPS_WORDS) then 4
    else if ContainsAny(t, NIGHTLIFE_WORDS) then 5
    else FALLBACK_RANK
  }

  /** A reference reading of the table: the rank g + 1 of the first group g,
      from `from` on, that the text mentions. */
  function FirstGroup(t: string, groups: seq<seq<string>>, from: nat): int
    decreases |groups| - from
  {
    if from >= |groups| then FALLBACK_RANK
    else if ContainsAny(t, groups[from]) then from + 1
    else FirstGroup(t, groups, from + 1)
  }

  /** The first group mentioned decides: the rank is g + 1 for the first
      group g the text mentions, and the fallback when it mentions none. */
  lemma {:induction false} FirstGroupSpec(t: string, groups: seq<seq<string>>, from: nat)
    requires from <= |groups| < FALLBACK_RANK
    ensures forall g | from <= g < |groups| ::
      FirstGroup(t, groups, from) == g + 1 <==>
        ContainsAny(t, groups[g]) && forall j | from <= j < g :: !ContainsAny(t, groups[j])
    ensures FirstGroup(t, groups, from) == FALLBACK_RANK <==>
      forall j | from <= j < |groups| :: !ContainsAny(t, groups[j])
    decreases |groups| - from
  {
    if from < |groups| {
      FirstGroupSpec(t, groups, from + 1);
    }
  }

  /** assign_importance ranks a title by the first keyword group it mentions:
      rank g + 1 exactly when it mentions group g and no earlier group, and
      the fallback exactly when it mentions none. */
  lemma ImportanceSpec(sectionTitle: string)
    ensures Importance(sectionTitle) == FirstGroup(Lower(sectionTitle), KEYWORD_GROUPS, 0)
    ensures forall g | 0 <= g < |KEYWORD_GROUPS| ::
      Importance(sectionTitle) == g + 1 <==>
        ContainsAny(Lower(sectionTitle), KEYWORD_GROUPS[g])
        && forall j | 0 <= j < g :: !ContainsAny(Lower(sectionTitle), KEYWORD_GROUPS[j])
    ensures Importance(sectionTitle) <= |KEYWORD_GROUPS| <==>
      exists g | 0 <= g < |KEYWORD_GROUPS| :: ContainsAny(Lower(sectionTitle), KEYWORD_GROUPS[g])
  {
    var t := Lower(sectionTitle);
    FirstGroupSpec(t, KEYWORD_GROUPS, 0);
    var g := KEYWORD_GROUPS;
    assert FirstGroup(t, g, 4) == if ContainsAny(t, NIGHTLIFE_WORDS) then 5 else FALLBACK_RANK;
    assert FirstGroup(t, g, 3) == if ContainsAny(t, TIPS_WORDS) then 4 else FirstGroup(t, g, 4);
    assert FirstGroup(t, g, 2) == if ContainsAny(t, FOOD_WORDS) then 3 else FirstGroup(t, g, 3);
    assert FirstGroup(t, g, 1) == if ContainsAny(t, ACTIVITY_WORDS) then 2 else FirstGroup(t, g, 2);
  }
}
