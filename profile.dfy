/** The font profile of a document: a histogram of rounded span sizes over
    every page, and the font levels, the six largest sizes in descending
    order (extract_headings, heading_extractor.py:121-134). */
module FontProfile {
  import opened Layout
  import opened FormPage
  import opened Sorting
  import opened Seqs

  /** At most this many sizes become font levels. */
  const MAX_LEVELS: nat := 6

  /** Every span of the document, page after page. */
  function AllSpans(doc: Document): seq<Span>
    decreases |doc|
  {
    if doc == [] then [] else AllSpans(doc[..|doc| - 1]) + LineSpans(doc[|doc| - 1].lines)
  }

  /** The dictionary font_stats: sizes in insertion order, and their counts. */
  datatype Histogram = Histogram(order: seq<int>, counts: map<int, nat>)

  /** font_stats[size] = font_stats.get(size, 0) + 1 */
  function Tally(h: Histogram, size: int): Histogram {
    Histogram(if size in h.counts then h.order else h.order + [size],
              h.counts[size := (if size in h.counts then h.counts[size] else 0) + 1])
  }

  /** font_stats after the given spans. */
  function Stats(spans: seq<Span>): Histogram
    decreases |spans|
  {
    if spans == [] then Histogram([], map[])
    else Tally(Stats(spans[..|spans| - 1]), spans[|spans| - 1].size)
  }

  /** Number of spans of the given size. */
  function SizeCount(spans: seq<Span>, size: int): nat
    decreases |spans|
  {
    if spans == [] then 0
    else SizeCount(spans[..|spans| - 1], size) + (if spans[|spans| - 1].size == size then 1 else 0)
  }

  predicate HistogramValid(h: Histogram) {
    Distinct(h.order)
    && (forall i | 0 <= i < |h.order| :: h.order[i] in h.counts)
    && (forall s | s in h.counts :: s in h.order)
  }

  /** The histogram counts every span exactly once: a size is a key exactly
      when some span has it, and its count is the number of such spans. */
  lemma {:induction false} StatsCounts(spans: seq<Span>)
    ensures HistogramValid(Stats(spans))
    ensures forall s :: (s in Stats(spans).counts <==> SizeCount(spans, s) > 0)
    ensures forall s | s in Stats(spans).counts :: Stats(spans).counts[s] == SizeCount(spans, s)
    decreases |spans|
  {
    if spans != [] {
      var init := spans[..|spans| - 1];
      StatsCounts(init);
      var h := Stats(init);
      var size := spans[|spans| - 1].size;
      if size !in h.counts {
        assert size !in h.order;
        DistinctAppend(h.order, size);
      }
    }
  }

  lemma StatsAppend(spans: seq<Span>, s: Span)
    ensures Stats(spans + [s]) == Tally(Stats(spans), s.size)
  {
    assert (spans + [s])[..|spans|] == spans;
  }

  /** The innermost loop of the histogram, over the spans of one line. */
  method TallySpans(h0: Histogram, spans: seq<Span>, ghost before: seq<Span>) returns (h: Histogram)
    requires h0 == Stats(before)
    ensures h == Stats(before + spans)
  {
    h := h0;
    ghost var done := before;
    for j := 0 to |spans|
      invariant done == before + spans[..j]
      invariant h == Stats(done)
    {
      PrefixStep(before, spans, j);
      StatsAppend(done, spans[j]);
      done := done + [spans[j]];
      var size := spans[j].size;
      h := Histogram(if size in h.counts then h.order else h.order + [size],
                     h.counts[size := (if size in h.counts then h.counts[size] else 0) + 1]);
    }
    assert spans[..|spans|] == spans;
  }

  /** The loop over the lines of one page. */
  method TallyPage(h0: Histogram, page: Page, ghost before: seq<Span>) returns (h: Histogram)
    requires h0 == Stats(before)
    ensures h == Stats(before + LineSpans(page.lines))
  {
    h := h0;
    var lines := page.lines;
    assert before + LineSpans(lines[..0]) == before;
    for i := 0 to |lines|
      invariant h == Stats(before + LineSpans(lines[..i]))
    {
      LineSpansAppend(lines, i);
      AppendAssoc(before, LineSpans(lines[..i]), lines[i].spans);
      h := TallySpans(h, lines[i].spans, before + LineSpans(lines[..i]));
    }
    assert lines[..|lines|] == lines;
  }

  lemma AllSpansStep(doc: Document, p: nat)
    requires p < |doc|
    ensures AllSpans(doc[..p + 1]) == AllSpans(doc[..p]) + LineSpans(doc[p].lines)
  {
    assert doc[..p + 1][..p] == doc[..p];
  }

  /** The histogram loop of extract_headings over every page. */
  method BuildFontStats(doc: Document) returns (h: Histogram)
    ensures h == Stats(AllSpans(doc))
  {
    h := Histogram([], map[]);
    for p := 0 to |doc|
      invariant h == Stats(AllSpans(doc[..p]))
    {
      AllSpansStep(doc, p);
      h := TallyPage(h, doc[p], AllSpans(doc[..p]));
    }
    assert doc[..|doc|] == doc;
  }

  function Descending(size: int): Key { (-size, 0) }

  /** [s[0] for s in sorted_sizes[:6]], sorted_sizes ordering the sizes from
      the largest down. */
  function Levels(h: Histogram): seq<int> {
    Top(SortBy(h.order, Descending))
  }

  /** sorted[:6] */
  function Top(sorted: seq<int>): seq<int> {
    Take(sorted, MAX_LEVELS)
  }

  /** A size of a strictly descending sequence that is not among its first
      six is smaller than all six. */
  lemma TopLargest(sorted: seq<int>, s: int)
    requires forall i, j | 0 <= i < j < |sorted| :: sorted[i] > sorted[j]
    requires s in sorted && s !in Top(sorted)
    ensures |Top(sorted)| == MAX_LEVELS && s < Top(sorted)[MAX_LEVELS - 1]
  {
    var k :| 0 <= k < |sorted| && sorted[k] == s;
  }

  /** Sorting distinct sizes from the largest down gives a strictly
      descending sequence of the same sizes. */
  lemma SortedSizes(order: seq<int>)
    requires Distinct(order)
    ensures var sorted := SortBy(order, Descending);
      && multiset(sorted) == multiset(order)
      && forall i, j | 0 <= i < j < |sorted| :: sorted[i] > sorted[j]
  {
    var sorted := SortBy(order, Descending);
    SortBySorted(order, Descending);
    SortByPermutes(order, Descending);
    forall i, j | 0 <= i < j < |sorted| ensures sorted[i] > sorted[j] {
      assert KeyLe(Descending(sorted[i]), Descending(sorted[j]));
      DistinctCount(order, sorted[i]);
      TwoOccurrences(sorted, i, j);
    }
  }

  /** The font levels are at most six distinct sizes, strictly descending. */
  lemma LevelsDescending(spans: seq<Span>)
    ensures var levels := Levels(Stats(spans));
      && |levels| <= MAX_LEVELS
      && (forall i, j | 0 <= i < j < |levels| :: levels[i] > levels[j])
  {
    var h := Stats(spans);
    StatsCounts(spans);
    assert Distinct(h.order);
    SortedSizes(h.order);
  }

  /** Each font level is the size of some span, and no size left out is
      larger than a level: the levels are the largest sizes of the document. */
  lemma LevelsLargest(spans: seq<Span>)
    ensures var levels := Levels(Stats(spans));
      && (forall i | 0 <= i < |levels| :: SizeCount(spans, levels[i]) > 0)
      && (forall s | SizeCount(spans, s) > 0 && s !in levels ::
            |levels| == MAX_LEVELS && s < levels[MAX_LEVELS - 1])
  {
    var h := Stats(spans);
    StatsCounts(spans);
    SortedSizes(h.order);
    var sorted := SortBy(h.order, Descending);
    var levels := Levels(h);
    forall i | 0 <= i < |levels| ensures SizeCount(spans, levels[i]) > 0 {
      assert levels[i] == sorted[i];
      assert sorted[i] in multiset(h.order);
    }
    forall s | SizeCount(spans, s) > 0 && s !in levels
      ensures |levels| == MAX_LEVELS && s < levels[MAX_LEVELS - 1]
    {
      assert s in multiset(sorted);
      TopLargest(sorted, s);
    }
  }

  /** There are no font levels exactly when the document has no span. */
  lemma LevelsEmpty(spans: seq<Span>)
    ensures Levels(Stats(spans)) == [] <==> spans == []
  {
    var h := Stats(spans);
    StatsCounts(spans);
    if spans != [] {
      assert SizeCount(spans, spans[|spans| - 1].size) > 0;
      assert |h.order| > 0;
    }
  }
}
