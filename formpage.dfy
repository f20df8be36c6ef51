/** The form-page detector of the outline builder (is_likely_form_page,
    heading_extractor.py:44-56): a page dominated by short label-like runs is a
    form, and the outline builder skips it. */
module FormPage {
  import opened Text
  import opened Layout
  import opened Seqs

  /** All spans of the lines, in order. */
  function LineSpans(lines: seq<Line>): seq<Span>
    decreases |lines|
  {
    if |lines| == 0 then [] else LineSpans(lines[..|lines| - 1]) + lines[|lines| - 1].spans
  }

  /** A run is label-shaped when it is short and has a colon or few words. */
  predicate IsLabel(t: string) {
    |t| <= 30 && (Contains(t, ":") || WordCount(t) < 6)
  }

  /** Number of spans whose stripped text is not empty. */
  function TextCount(spans: seq<Span>): nat
    decreases |spans|
  {
    if |spans| == 0 then 0
    else TextCount(spans[..|spans| - 1]) + (if Strip(spans[|spans| - 1].text) != [] then 1 else 0)
  }

  /** Number of spans whose stripped text is not empty and label-shaped. */
  function LabelCount(spans: seq<Span>): nat
    decreases |spans|
  {
    if |spans| == 0 then 0
    else
      var t := Strip(spans[|spans| - 1].text);
      LabelCount(spans[..|spans| - 1]) + (if t != [] && IsLabel(t) then 1 else 0)
  }

  /** `text_count > 8 and label_count / text_count > 0.6`, with the ratio
      compared exactly. */
  predicate FormShaped(labels: nat, texts: nat) {
    texts > 8 && 10 * labels > 6 * texts
  }

  predicate IsFormPage(page: Page) {
    var spans := LineSpans(page.lines);
    FormShaped(LabelCount(spans), TextCount(spans))
  }

  /** Every label counted is also a text counted, so the ratio never exceeds 1. */
  lemma {:induction false} LabelsAreTexts(spans: seq<Span>)
    ensures LabelCount(spans) <= TextCount(spans)
    decreases |spans|
  {
    if |spans| > 0 {
      LabelsAreTexts(spans[..|spans| - 1]);
    }
  }

  /** A page with at most eight non-empty runs is never a form page; a page
      with more is one exactly when more than 60% of its non-empty runs are
      labels. */
  lemma FormPageThreshold(page: Page)
    ensures TextCount(LineSpans(page.lines)) <= 8 ==> !IsFormPage(page)
    ensures TextCount(LineSpans(page.lines)) > 8 ==>
      (IsFormPage(page) <==> 10 * LabelCount(LineSpans(page.lines)) > 6 * TextCount(LineSpans(page.lines)))
    ensures IsFormPage(page) ==> LabelCount(LineSpans(page.lines)) > 0
  {
  }

  /** A page of more than eight runs, all of them labels, is a form page. */
  lemma {:induction false} AllLabelsIsForm(spans: seq<Span>)
    requires forall i | 0 <= i < |spans| :: Strip(spans[i].text) != [] && IsLabel(Strip(spans[i].text))
    ensures LabelCount(spans) == TextCount(spans) == |spans|
    decreases |spans|
  {
    if |spans| > 0 {
      AllLabelsIsForm(spans[..|spans| - 1]);
    }
  }

  lemma CountsAppend(spans: seq<Span>, s: Span)
    ensures TextCount(spans + [s]) == TextCount(spans) + (if Strip(s.text) != [] then 1 else 0)
    ensures LabelCount(spans + [s]) ==
      LabelCount(spans) + (if Strip(s.text) != [] && IsLabel(Strip(s.text)) then 1 else 0)
  {
    assert (spans + [s])[..|spans|] == spans;
  }

  lemma LineSpansAppend(lines: seq<Line>, i: nat)
    requires i < |lines|
    ensures LineSpans(lines[..i + 1]) == LineSpans(lines[..i]) + lines[i].spans
  {
    assert lines[..i + 1][..i] == lines[..i];
  }

  /** is_likely_form_page: counts label-shaped and non-empty runs line by line. */
  method IsLikelyFormPage(page: Page) returns (r: bool)
    ensures r == IsFormPage(page)
  {
    var labelCount := 0;
    var textCount := 0;
    var lines := page.lines;
    for i := 0 to |lines|
      invariant labelCount == LabelCount(LineSpans(lines[..i]))
      invariant textCount == TextCount(LineSpans(lines[..i]))
    {
      LineSpansAppend(lines, i);
      labelCount, textCount := CountLine(lines[i].spans, LineSpans(lines[..i]), labelCount, textCount);
    }
    assert lines[..|lines|] == lines;
    r := textCount > 8 && 10 * labelCount > 6 * textCount;
  }

  /** The inner loop over the spans of one line: adds its counts to those of
      the spans seen before it. */
  method CountLine(spans: seq<Span>, ghost before: seq<Span>, labels0: nat, texts0: nat)
    returns (labelCount: nat, textCount: nat)
    requires labels0 == LabelCount(before) && texts0 == TextCount(before)
    ensures labelCount == LabelCount(before + spans) && textCount == TextCount(before + spans)
  {
    labelCount, textCount := labels0, texts0;
    ghost var done := before;
    for j := 0 to |spans|
      invariant done == before + spans[..j]
      invariant labelCount == LabelCount(done)
      invariant textCount == TextCount(done)
    {
      PrefixStep(before, spans, j);
      CountsAppend(done, spans[j]);
      done := done + [spans[j]];
      var t := Strip(spans[j].text);
      if t == [] {
        continue;
      }
      if IsLabel(t) {
        labelCount := labelCount + 1;
      }
      textCount := textCount + 1;
    }
    assert spans[..|spans|] == spans;
  }
}
