/** The ranking of sections across the input documents and the analysis of
    each chosen section (main, extractor1B.py:78-106): the first seven
    headings of every document are ranked by keyword group, those ranked 5
    or better become candidates, the five with the best rank (then the
    earliest page) are extracted, and for each the text under it is taken
    from its page. */
module Selection {
  import opened Text
  import opened Layout
  import opened Sorting
  import opened Seqs
  import opened Ranker
  import opened Excerpt

  /** Only this many headings of each document are ranked. */
  const HEADINGS_PER_DOC: nat := 7

  /** A heading becomes a candidate when its rank is at most this. */
  const WORST_KEPT_RANK: int := 5

  /** This many candidates are extracted. */
  const SECTIONS_KEPT: nat := 5

  /** An input document: its file name, its layout, and the plain text of
      each of its pages. */
  datatype Input = Input(filename: string, pages: Document, texts: seq<string>)

  /** An entry of extracted_sections. */
  datatype Section = Section(document: string, title: string, rank: int, page: int)

  /** An entry of subsection_analysis. */
  datatype Subsection = Subsection(document: string, refined: string, page: int)

  /** Each document has a text per page, and documents with the same file
      name are the same file. */
  predicate InputsOk(docs: seq<Input>) {
    (forall i | 0 <= i < |docs| :: |docs[i].texts| == |docs[i].pages|)
    && forall i, j | 0 <= i < |docs| && 0 <= j < |docs| && docs[i].filename == docs[j].filename :: docs[i] == docs[j]
  }

  /** The candidate a heading of the named document gives, if its rank is
      good enough. */
  function SectionOf(filename: string): Heading -> Option<Section> {
    (h: Heading) => var rank := Importance(h.text);
      if rank <= WORST_KEPT_RANK then Some(Section(filename, h.text, rank, h.page)) else None
  }

  /** The candidates of one document, from its first seven headings. */
  function DocSections(d: Input): seq<Section> {
    FilterMap(Take(Headings(d.pages), HEADINGS_PER_DOC), SectionOf(d.filename))
  }

  /** section_candidates, document after document. */
  function AllSections(docs: seq<Input>): seq<Section> {
    FlatMap(docs, DocSections)
  }

  /** (importance_rank, page_number) */
  function ByImportance(s: Section): Key { (s.rank, s.page) }

  /** extracted_sections */
  function Extracted(docs: seq<Input>): seq<Section> {
    Take(SortBy(AllSections(docs), ByImportance), SECTIONS_KEPT)
  }

  /** The first input with the given file name. */
  function FindInput(docs: seq<Input>, filename: string): (r: Option<Input>)
    ensures r.Some? ==> r.value in docs && r.value.filename == filename
    ensures r.None? ==> forall i | 0 <= i < |docs| :: docs[i].filename != filename
    decreases |docs|
  {
    if docs == [] then None
    else if docs[0].filename == filename then Some(docs[0])
    else FindInput(docs[1..], filename)
  }

  /** The page text a section's analysis reads, "" when there is none. */
  function PageText(docs: seq<Input>, s: Section): string {
    var d := FindInput(docs, s.document);
    if d.Some? && 1 <= s.page <= |d.value.texts| then d.value.texts[s.page - 1] else ""
  }

  /** The analysis entry of one section. */
  function Refine(docs: seq<Input>, s: Section): Subsection {
    Subsection(s.document, SectionText(PageText(docs, s), s.title), s.page)
  }

  /** subsection_analysis */
  function Analysis(docs: seq<Input>, secs: seq<Section>): seq<Subsection> {
    seq(|secs|, i requires 0 <= i < |secs| => Refine(docs, secs[i]))
  }

  // ---- Candidates ----

  /** A document's candidates are its first seven headings ranked 5 or
      better, each carrying the document's name, its title, its rank and a
      page of the document; there are at most seven. */
  lemma DocSectionsSpec(d: Input)
    ensures |DocSections(d)| <= HEADINGS_PER_DOC
    ensures forall s | s in DocSections(d) ::
      && s.document == d.filename
      && 1 <= s.rank <= WORST_KEPT_RANK && s.rank == Importance(s.title)
      && 1 <= s.page <= |d.pages|
      && exists k | 0 <= k < |Headings(d.pages)| && k < HEADINGS_PER_DOC ::
           Headings(d.pages)[k].text == s.title && Headings(d.pages)[k].page == s.page
    ensures forall k | 0 <= k < |Headings(d.pages)| && k < HEADINGS_PER_DOC
              && Importance(Headings(d.pages)[k].text) <= WORST_KEPT_RANK ::
      Section(d.filename, Headings(d.pages)[k].text, Importance(Headings(d.pages)[k].text),
              Headings(d.pages)[k].page) in DocSections(d)
  {
    var hs := Headings(d.pages);
    var top := Take(hs, HEADINGS_PER_DOC);
    FilterMapLength(top, SectionOf(d.filename));
    FilterMapSpec(top, SectionOf(d.filename));
    HeadingsPages(d.pages);
    forall s | s in DocSections(d)
      ensures && s.document == d.filename
        && 1 <= s.rank <= WORST_KEPT_RANK && s.rank == Importance(s.title)
        && 1 <= s.page <= |d.pages|
        && exists k | 0 <= k < |hs| && k < HEADINGS_PER_DOC :: hs[k].text == s.title && hs[k].page == s.page
    {
      var k :| 0 <= k < |top| && SectionOf(d.filename)(top[k]) == Some(s);
      assert top[k] == hs[k];
    }
    forall k | 0 <= k < |hs| && k < HEADINGS_PER_DOC && Importance(hs[k].text) <= WORST_KEPT_RANK
      ensures Section(d.filename, hs[k].text, Importance(hs[k].text), hs[k].page) in DocSections(d)
    {
      assert top[k] == hs[k];
      assert SectionOf(d.filename)(top[k]) == Some(Section(d.filename, hs[k].text, Importance(hs[k].text), hs[k].page));
    }
  }

  /** FilterMap keeps at most one value per element. */
  lemma {:induction false} FilterMapLength<A, B>(s: seq<A>, f: A -> Option<B>)
    ensures |FilterMap(s, f)| <= |s|
    decreases |s|
  {
    if s != [] {
      FilterMapLength(s[..|s| - 1], f);
    }
  }

  /** Every candidate is a candidate of one of the documents, and every
      candidate of a document is one. */
  lemma AllSectionsSpec(docs: seq<Input>)
    ensures forall s :: s in AllSections(docs) <==> exists i | 0 <= i < |docs| :: s in DocSections(docs[i])
  {
    FlatMapSpec(docs, DocSections);
  }

  // ---- Extraction ----

  /** At most five sections are extracted, ordered by rank and then page;
      each is a candidate, and a candidate left out ranks no better than any
      extracted section (so five were extracted). */
  lemma ExtractedSpec(docs: seq<Input>)
    ensures |Extracted(docs)| == (if |AllSections(docs)| <= SECTIONS_KEPT then |AllSections(docs)| else SECTIONS_KEPT)
    ensures SortedBy(Extracted(docs), ByImportance)
    ensures multiset(Extracted(docs)) <= multiset(AllSections(docs))
    ensures forall i | 0 <= i < |Extracted(docs)| :: Extracted(docs)[i] in AllSections(docs)
    ensures forall c | c in AllSections(docs) && c !in Extracted(docs) ::
      |Extracted(docs)| == SECTIONS_KEPT
      && forall i | 0 <= i < SECTIONS_KEPT :: KeyLe(ByImportance(Extracted(docs)[i]), ByImportance(c))
  {
    var cands := AllSections(docs);
    var sorted := SortBy(cands, ByImportance);
    SortBySorted(cands, ByImportance);
    SortByPermutes(cands, ByImportance);
    TopMembers(cands, sorted);
    TopBest(cands, sorted);
  }

  /** The first five of a permutation are among the candidates, each taken
      no more often than it occurs among them. */
  lemma TopMembers(cands: seq<Section>, sorted: seq<Section>)
    requires multiset(sorted) == multiset(cands)
    ensures multiset(Take(sorted, SECTIONS_KEPT)) <= multiset(cands)
    ensures forall i | 0 <= i < |Take(sorted, SECTIONS_KEPT)| :: Take(sorted, SECTIONS_KEPT)[i] in cands
  {
    var top := Take(sorted, SECTIONS_KEPT);
    assert sorted == top + sorted[|top|..];
    forall i | 0 <= i < |top| ensures top[i] in cands {
      assert sorted[i] in multiset(sorted);
    }
  }

  /** A candidate outside the first five of a sorted permutation ranks no
      better than any of the five. */
  lemma TopBest(cands: seq<Section>, sorted: seq<Section>)
    requires multiset(sorted) == multiset(cands) && SortedBy(sorted, ByImportance)
    ensures forall c | c in cands && c !in Take(sorted, SECTIONS_KEPT) ::
      |Take(sorted, SECTIONS_KEPT)| == SECTIONS_KEPT
      && forall i | 0 <= i < SECTIONS_KEPT :: KeyLe(ByImportance(Take(sorted, SECTIONS_KEPT)[i]), ByImportance(c))
  {
    var top := Take(sorted, SECTIONS_KEPT);
    forall c | c in cands && c !in top
      ensures |top| == SECTIONS_KEPT && forall i | 0 <= i < SECTIONS_KEPT :: KeyLe(ByImportance(top[i]), ByImportance(c))
    {
      assert c in multiset(sorted);
      var k :| 0 <= k < |sorted| && sorted[k] == c;
    }
  }

  /** Candidates with the same rank and page keep the order of the documents
      and of their headings. */
  lemma ExtractedStable(docs: seq<Input>, k: Key)
    ensures WithKey(SortBy(AllSections(docs), ByImportance), ByImportance, k)
         == WithKey(AllSections(docs), ByImportance, k)
  {
    SortByStable(AllSections(docs), ByImportance, k);
  }

  /** Every extracted section names one of the documents, ranks 1 to 5 by
      its title and lies on a page of that document. */
  lemma ExtractedFromInputs(docs: seq<Input>)
    ensures forall s | s in Extracted(docs) ::
      && 1 <= s.rank <= WORST_KEPT_RANK && s.rank == Importance(s.title)
      && exists i | 0 <= i < |docs| :: docs[i].filename == s.document && 1 <= s.page <= |docs[i].pages|
  {
    ExtractedSpec(docs);
    AllSectionsSpec(docs);
    forall s | s in Extracted(docs)
      ensures && 1 <= s.rank <= WORST_KEPT_RANK && s.rank == Importance(s.title)
        && exists i | 0 <= i < |docs| :: docs[i].filename == s.document && 1 <= s.page <= |docs[i].pages|
    {
      var i :| 0 <= i < |docs| && s in DocSections(docs[i]);
      DocSectionsSpec(docs[i]);
    }
  }

  /** With well-formed inputs, the analysis has one entry per extracted
      section, with its document and page, and the text found under its
      title on that page of that document. */
  lemma AnalysisSpec(docs: seq<Input>)
    requires InputsOk(docs)
    ensures |Analysis(docs, Extracted(docs))| == |Extracted(docs)|
    ensures forall n | 0 <= n < |Extracted(docs)| ::
      AnalysisOf(docs, Extracted(docs)[n], Analysis(docs, Extracted(docs))[n])
  {
    var ext := Extracted(docs);
    ExtractedFromInputs(docs);
    forall n | 0 <= n < |ext| ensures AnalysisOf(docs, ext[n], Analysis(docs, ext)[n]) {
      assert ext[n] in ext;
      RefineSpec(docs, ext[n]);
    }
  }

  /** `sub` analyses section `s`: same document and page, and the text
      found under the section's title on that page of that document. */
  predicate AnalysisOf(docs: seq<Input>, s: Section, sub: Subsection) {
    && sub.document == s.document && sub.page == s.page
    && exists i | 0 <= i < |docs| ::
         && docs[i].filename == s.document && 1 <= s.page <= |docs[i].texts|
         && sub.refined == SectionText(docs[i].texts[s.page - 1], s.title)
  }

  /** A section on a page of one of the documents is analysed from that page. */
  lemma RefineSpec(docs: seq<Input>, s: Section)
    requires InputsOk(docs)
    requires exists i | 0 <= i < |docs| :: docs[i].filename == s.document && 1 <= s.page <= |docs[i].pages|
    ensures AnalysisOf(docs, s, Refine(docs, s))
  {
    var i :| 0 <= i < |docs| && docs[i].filename == s.document && 1 <= s.page <= |docs[i].pages|;
    var d := FindInput(docs, s.document);
    var j :| 0 <= j < |docs| && docs[j] == d.value;
    assert docs[j] == docs[i];
  }

  // ---- The loops of main ----

  /** The loop over headings[:7] of one document. */
  method RankHeadings(filename: string, headings: seq<Heading>) returns (secs: seq<Section>)
    ensures secs == FilterMap(Take(headings, HEADINGS_PER_DOC), SectionOf(filename))
  {
    var top := Take(headings, HEADINGS_PER_DOC);
    secs := [];
    for i := 0 to |top|
      invariant secs == FilterMap(top[..i], SectionOf(filename))
    {
      FilterMapStep(top, i, SectionOf(filename));
      var h := top[i];
      var rank := Importance(h.text);
      if rank <= WORST_KEPT_RANK {
        secs := secs + [Section(filename, h.text, rank, h.page)];
      }
    }
    assert top[..|top|] == top;
  }

  /** The loop over the documents that builds section_candidates. */
  method CollectSections(docs: seq<Input>) returns (cands: seq<Section>)
    ensures cands == AllSections(docs)
  {
    cands := [];
    for i := 0 to |docs|
      invariant cands == AllSections(docs[..i])
    {
      FlatMapStep(docs, i, DocSections);
      var headings := ExtractHeadings(docs[i].pages);
      var secs := RankHeadings(docs[i].filename, headings);
      cands := cands + secs;
    }
    assert docs[..|docs|] == docs;
  }

  /** The loop that builds subsection_analysis. */
  method AnalyseSections(docs: seq<Input>, secs: seq<Section>) returns (analysis: seq<Subsection>)
    ensures analysis == Analysis(docs, secs)
  {
    analysis := [];
    for n := 0 to |secs|
      invariant |analysis| == n
      invariant forall m | 0 <= m < n :: analysis[m] == Refine(docs, secs[m])
    {
      var s := secs[n];
      var refined := ExtractSectionText(PageText(docs, s), s.title);
      assert Subsection(s.document, refined, s.page) == Refine(docs, secs[n]);
      analysis := analysis + [Subsection(s.document, refined, s.page)];
    }
    assert |analysis| == |Analysis(docs, secs)|;
    assert forall m | 0 <= m < |secs| :: analysis[m] == Analysis(docs, secs)[m];
  }

  /** main, from the input documents to extracted_sections and
      subsection_analysis. */
  method RankSections(docs: seq<Input>) returns (extracted: seq<Section>, analysis: seq<Subsection>)
    ensures extracted == Extracted(docs)
    ensures analysis == Analysis(docs, extracted)
  {
    var cands := CollectSections(docs);
    extracted := Take(SortBy(cands, ByImportance), SECTIONS_KEPT);
    analysis := AnalyseSections(docs, extracted);
  }
}
