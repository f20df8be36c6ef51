/** The outline builder (extract_headings, heading_extractor.py:120-216):
    font profile, title, one candidate entry per line of every page that is
    not a form, de-duplication by (level, text, page), removal of consecutive
    repeats, the flyer fallback and the final clean-up. */
module Outline {
  import opened Text
  import opened Layout
  import opened Classify
  import opened FormPage
  import opened Seqs
  import opened FontProfile
  import opened Title

  /** An outline entry; `level` k stands for the string "Hk". */
  datatype Entry = Entry(level: int, text: string, page: int)

  /** Only the first four font levels give their own heading level. */
  const RANKED_LEVELS: nat := 4

  // ---- One line ----

  /** [span["text"].strip() for span in spans if span["text"].strip()] */
  function NonEmptyTexts(spans: seq<Span>): seq<string>
    decreases |spans|
  {
    if spans == [] then []
    else
      var t := Strip(spans[|spans| - 1].text);
      NonEmptyTexts(spans[..|spans| - 1]) + (if t != [] then [t] else [])
  }

  /** [round(span["size"]) for span in spans if span["text"].strip()] */
  function NonEmptySizes(spans: seq<Span>): seq<int>
    decreases |spans|
  {
    if spans == [] then []
    else
      var s := spans[|spans| - 1];
      NonEmptySizes(spans[..|spans| - 1]) + (if Strip(s.text) != [] then [s.size] else [])
  }

  /** The text of a line: its non-blank runs joined by spaces, normalised. */
  function LineText(line: Line): string {
    NormalizeSpaces(Join(" ", NonEmptyTexts(line.spans)))
  }

  /** next((i for i, v in enumerate(levels) if v == size), None) */
  function IndexOf(levels: seq<int>, size: int): (r: Option<nat>)
    ensures r.Some? ==> r.value < |levels| && levels[r.value] == size
                        && forall j | 0 <= j < r.value :: levels[j] != size
    ensures r.None? ==> size !in levels
    decreases |levels|
  {
    if levels == [] then None
    else if levels[0] == size then Some(0)
    else match IndexOf(levels[1..], size)
      case None => None
      case Some(i) => Some(i + 1)
  }

  /** The heading level of a line: from its section number when it has one,
      otherwise from the rank of its largest font among the levels, the
      fifth and sixth levels and unranked sizes all giving 4. */
  function LevelOf(text: string, size: int, levels: seq<int>): (r: int)
    ensures 1 <= r <= RANKED_LEVELS
    ensures HeadingLevelByNumbering(text) > 0 ==> r == HeadingLevelByNumbering(text)
    ensures HeadingLevelByNumbering(text) == 0 ==>
      forall i | 0 <= i < |levels| && levels[i] == size && size !in levels[..i] ::
        r == (if i < RANKED_LEVELS then i + 1 else RANKED_LEVELS)
    ensures HeadingLevelByNumbering(text) == 0 && size !in levels ==> r == RANKED_LEVELS
  {
    var n := HeadingLevelByNumbering(text);
    if n > 0 then n
    else match IndexOf(levels, size)
      case Some(i) => if i < RANKED_LEVELS then i + 1 else RANKED_LEVELS
      case None => RANKED_LEVELS
  }

  /** The entry a line of page `pageNo` yields, before de-duplication. */
  function LineEntry(line: Line, pageNo: int, title: string, levels: seq<int>): Option<Entry> {
    EntryFor(LineText(line), NonEmptySizes(line.spans), pageNo, title, levels)
  }

  /** The checks made on the text `lt` and the sizes of a line. */
  function EntryFor(lt: string, sizes: seq<int>, pageNo: int, title: string, levels: seq<int>): Option<Entry> {
    if lt == [] || IsFakeHeading(lt) || IsAddressOrCity(lt) then None
    else if Lower(Strip(lt)) == Lower(Strip(title)) then None
    else if sizes == [] then None
    else
      var level := LevelOf(lt, Max(sizes), levels);
      if !IsHeadingLike(lt) then None
      else
        var out := if EndsWith(lt, " ") then lt else lt + " ";
        if IsFakeHeading(out) || IsAddressOrCity(out) then None
        else Some(Entry(level, out, pageNo))
  }

  /** What an entry of page `pageNo` always looks like: a level in H1..H4,
      its page, a normalised non-empty text followed by exactly one space,
      heading-shaped, not noise and not the title. */
  predicate EntryShape(e: Entry, pageNo: int, title: string) {
    && 1 <= e.level <= RANKED_LEVELS
    && e.page == pageNo
    && |e.text| >= 2 && e.text[|e.text| - 1] == ' ' && Normalized(e.text[..|e.text| - 1])
    && IsHeadingLike(e.text) && !IsFakeHeading(e.text) && !IsAddressOrCity(e.text)
    && Lower(Strip(e.text)) != Lower(Strip(title))
  }

  /** A normalised non-empty text gets exactly one space appended, and the
      space changes neither its strip nor its classification. */
  lemma AppendedSpace(lt: string)
    requires Normalized(lt) && lt != []
    ensures !EndsWith(lt, " ")
    ensures Strip(lt + " ") == lt && (lt + " ")[..|lt|] == lt
    ensures IsHeadingLike(lt + " ") == IsHeadingLike(lt)
    ensures IsFakeHeading(lt + " ") == IsFakeHeading(lt)
    ensures IsAddressOrCity(lt + " ") == IsAddressOrCity(lt)
  {
    assert lt[|lt| - 1] != ' ';
    StripTrailingSpace(lt, " ");
    StripFixed(lt);
    NoiseIgnoresTrailingSpace(lt, " ");
  }

  lemma EntryForShape(lt: string, sizes: seq<int>, pageNo: int, title: string, levels: seq<int>)
    requires Normalized(lt)
    ensures EntryFor(lt, sizes, pageNo, title, levels).Some? ==>
      EntryShape(EntryFor(lt, sizes, pageNo, title, levels).value, pageNo, title)
  {
    var r := EntryFor(lt, sizes, pageNo, title, levels);
    if r.Some? {
      assert lt != [] && sizes != [];
      AppendedSpace(lt);
      var level := LevelOf(lt, Max(sizes), levels);
      assert r.value == Entry(level, lt + " ", pageNo);
      ShapeOfEntry(lt, level, pageNo, title);
    }
  }

  /** The facts EntryFor checks, restated on the entry it builds. */
  lemma ShapeOfEntry(lt: string, level: int, pageNo: int, title: string)
    requires Normalized(lt) && lt != [] && 1 <= level <= RANKED_LEVELS
    requires Strip(lt + " ") == lt && (lt + " ")[..|lt|] == lt
    requires IsHeadingLike(lt + " ") && !IsFakeHeading(lt + " ") && !IsAddressOrCity(lt + " ")
    requires Lower(Strip(lt)) != Lower(Strip(title))
    ensures EntryShape(Entry(level, lt + " ", pageNo), pageNo, title)
  {
  }

  lemma LineEntryShape(line: Line, pageNo: int, title: string, levels: seq<int>)
    ensures LineEntry(line, pageNo, title, levels).Some? ==>
      EntryShape(LineEntry(line, pageNo, title, levels).value, pageNo, title)
  {
    NormalizeSpacesShape(Join(" ", NonEmptyTexts(line.spans)));
    EntryForShape(LineText(line), NonEmptySizes(line.spans), pageNo, title, levels);
  }

  // ---- Every page ----

  function Entries(e: Option<Entry>): seq<Entry> {
    if e.Some? then [e.value] else []
  }

  /** The entry of a line on a given page, for a given title and levels. */
  type EntryOf = (Line, int) -> Option<Entry>

  function LineEntryOf(title: string, levels: seq<int>): EntryOf {
    (line, pageNo) => LineEntry(line, pageNo, title, levels)
  }

  /** The entries of the lines of one page, in order. */
  function LinesEntries(lines: seq<Line>, pageNo: int, entryOf: EntryOf): seq<Entry>
    decreases |lines|
  {
    if lines == [] then []
    else LinesEntries(lines[..|lines| - 1], pageNo, entryOf) + Entries(entryOf(lines[|lines| - 1], pageNo))
  }

  /** A form page contributes nothing. */
  function PageEntries(page: Page, pageNo: int, entryOf: EntryOf): seq<Entry> {
    if IsFormPage(page) then [] else LinesEntries(page.lines, pageNo, entryOf)
  }

  /** The entries of every page, page k (from 0) reported as page k + 1. */
  function DocEntries(doc: Document, entryOf: EntryOf): seq<Entry>
    decreases |doc|
  {
    if doc == [] then []
    else DocEntries(doc[..|doc| - 1], entryOf) + PageEntries(doc[|doc| - 1], |doc|, entryOf)
  }

  /** An entry shaped as above whose page is a page of the document that is
      not a form page. */
  predicate EntryOk(e: Entry, doc: Document, title: string) {
    EntryShape(e, e.page, title) && 1 <= e.page <= |doc| && !IsFormPage(doc[e.page - 1])
  }

  /** Every entry a line yields is shaped as above. */
  ghost predicate ShapedEntries(entryOf: EntryOf, title: string) {
    forall line, pageNo | entryOf(line, pageNo).Some? :: EntryShape(entryOf(line, pageNo).value, pageNo, title)
  }

  lemma LineEntryOfShaped(title: string, levels: seq<int>)
    ensures ShapedEntries(LineEntryOf(title, levels), title)
  {
    forall line, pageNo | LineEntryOf(title, levels)(line, pageNo).Some?
      ensures EntryShape(LineEntryOf(title, levels)(line, pageNo).value, pageNo, title)
    {
      LineEntryShape(line, pageNo, title, levels);
    }
  }

  lemma {:induction false} LinesEntriesShape(lines: seq<Line>, pageNo: int, entryOf: EntryOf, title: string)
    requires ShapedEntries(entryOf, title)
    ensures forall e | e in LinesEntries(lines, pageNo, entryOf) :: EntryShape(e, pageNo, title)
    decreases |lines|
  {
    if lines != [] {
      LinesEntriesShape(lines[..|lines| - 1], pageNo, entryOf, title);
    }
  }

  lemma {:induction false} DocEntriesOk(doc: Document, entryOf: EntryOf, title: string, n: nat)
    requires n <= |doc| && ShapedEntries(entryOf, title)
    ensures forall e | e in DocEntries(doc[..n], entryOf) :: EntryOk(e, doc, title) && e.page <= n
    decreases n
  {
    if n > 0 {
      assert doc[..n][..n - 1] == doc[..n - 1];
      DocEntriesOk(doc, entryOf, title, n - 1);
      LinesEntriesShape(doc[n - 1].lines, n, entryOf, title);
    }
  }

  // ---- De-duplication by (level, text, page) ----

  /** The first occurrence of each entry, in order (the `seen` set). */
  function Dedup(s: seq<Entry>): seq<Entry>
    decreases |s|
  {
    if s == [] then []
    else
      var r := Dedup(s[..|s| - 1]);
      if s[|s| - 1] in r then r else r + [s[|s| - 1]]
  }

  lemma DedupStep(s: seq<Entry>, x: Entry)
    ensures Dedup(s + [x]) == (if x in Dedup(s) then Dedup(s) else Dedup(s) + [x])
  {
    assert (s + [x])[..|s|] == s;
  }

  /** De-duplication keeps every entry once and adds none. */
  lemma {:induction false} DedupDistinct(s: seq<Entry>)
    ensures Distinct(Dedup(s))
    ensures forall x :: x in Dedup(s) <==> x in s
    decreases |s|
  {
    if s != [] {
      var init := s[..|s| - 1];
      DedupDistinct(init);
      assert s == init + [s[|s| - 1]];
      if s[|s| - 1] !in Dedup(init) {
        DistinctAppend(Dedup(init), s[|s| - 1]);
      }
    }
  }

  lemma DocEntriesStep(doc: Document, p: nat, entryOf: EntryOf)
    requires p < |doc|
    ensures DocEntries(doc[..p + 1], entryOf) == DocEntries(doc[..p], entryOf) + PageEntries(doc[p], p + 1, entryOf)
  {
    assert doc[..p + 1][..p] == doc[..p];
  }

  lemma LinesEntriesStep(lines: seq<Line>, i: nat, pageNo: int, entryOf: EntryOf)
    requires i < |lines|
    ensures LinesEntries(lines[..i + 1], pageNo, entryOf) ==
      LinesEntries(lines[..i], pageNo, entryOf) + Entries(entryOf(lines[i], pageNo))
  {
    assert lines[..i + 1][..i] == lines[..i];
  }

  /** The loop over the lines of one page that is not a form page. */
  method OutlinePage(lines: seq<Line>, pageNo: int, entryOf: EntryOf,
                     outline0: seq<Entry>, seen0: set<Entry>, ghost before: seq<Entry>)
    returns (outline: seq<Entry>, seen: set<Entry>)
    requires outline0 == Dedup(before) && seen0 == set e | e in outline0
    ensures outline == Dedup(before + LinesEntries(lines, pageNo, entryOf))
    ensures seen == set e | e in outline
  {
    outline, seen := outline0, seen0;
    assert before + LinesEntries(lines[..0], pageNo, entryOf) == before;
    for i := 0 to |lines|
      invariant outline == Dedup(before + LinesEntries(lines[..i], pageNo, entryOf))
      invariant seen == set e | e in outline
    {
      LinesEntriesStep(lines, i, pageNo, entryOf);
      var cand := entryOf(lines[i], pageNo);
      AppendAssoc(before, LinesEntries(lines[..i], pageNo, entryOf), Entries(cand));
      outline, seen := AddCandidate(outline, seen, cand, before + LinesEntries(lines[..i], pageNo, entryOf));
    }
    assert lines[..|lines|] == lines;
  }

  /** One line's candidate: appended when it is new, skipped when absent or
      already seen. */
  method AddCandidate(outline0: seq<Entry>, seen0: set<Entry>, cand: Option<Entry>, ghost done: seq<Entry>)
    returns (outline: seq<Entry>, seen: set<Entry>)
    requires outline0 == Dedup(done) && seen0 == set e | e in outline0
    ensures outline == Dedup(done + Entries(cand))
    ensures seen == set e | e in outline
  {
    outline, seen := outline0, seen0;
    if cand.None? {
      assert done + Entries(cand) == done;
      return;
    }
    var key := cand.value;
    assert done + Entries(cand) == done + [key];
    DedupStep(done, key);
    if key !in seen {
      outline := outline + [key];
      seen := seen + {key};
    }
  }

  /** The outline loop of extract_headings, before consecutive repeats are
      removed. */
  method CollectOutline(doc: Document, entryOf: EntryOf) returns (outline: seq<Entry>)
    ensures outline == Dedup(DocEntries(doc, entryOf))
  {
    outline := [];
    var seen: set<Entry> := {};
    for p := 0 to |doc|
      invariant outline == Dedup(DocEntries(doc[..p], entryOf))
      invariant seen == set e | e in outline
    {
      DocEntriesStep(doc, p, entryOf);
      var form := IsLikelyFormPage(doc[p]);
      if form {
        assert DocEntries(doc[..p], entryOf) + [] == DocEntries(doc[..p], entryOf);
        continue;
      }
      outline, seen := OutlinePage(doc[p].lines, p + 1, entryOf, outline, seen, DocEntries(doc[..p], entryOf));
    }
    assert doc[..|doc|] == doc;
  }

  // ---- Consecutive repeats ----

  predicate SameHeading(a: Entry, b: Entry) { a.level == b.level && a.text == b.text }

  /** An entry is kept when the last entry kept differs in level or text. */
  function DropRepeats(s: seq<Entry>): seq<Entry>
    decreases |s|
  {
    if s == [] then []
    else
      var r := DropRepeats(s[..|s| - 1]);
      var x := s[|s| - 1];
      if r == [] || !SameHeading(x, r[|r| - 1]) then r + [x] else r
  }

  /** Reference definition: the entries that differ in level or text from
      the entry just before them in the input, among the first n. */
  function KeepChanges(s: seq<Entry>, n: nat): seq<Entry>
    requires n <= |s|
  {
    if n == 0 then []
    else KeepChanges(s, n - 1) + (if n == 1 || !SameHeading(s[n - 1], s[n - 2]) then [s[n - 1]] else [])
  }

  /** Comparing with the last entry kept is the same as comparing with the
      previous entry: a dropped entry repeats the last kept one. */
  lemma {:induction false} DropRepeatsIsKeepChanges(s: seq<Entry>, n: nat)
    requires n <= |s|
    ensures DropRepeats(s[..n]) == KeepChanges(s, n)
    ensures n > 0 ==> DropRepeats(s[..n]) != [] && SameHeading(DropRepeats(s[..n])[|DropRepeats(s[..n])| - 1], s[n - 1])
    decreases n
  {
    if n > 0 {
      assert s[..n][..n - 1] == s[..n - 1];
      DropRepeatsIsKeepChanges(s, n - 1);
    }
  }

  /** No two consecutive entries share level and text. */
  lemma {:induction false} DropRepeatsNoRepeats(s: seq<Entry>)
    ensures forall i | 0 < i < |DropRepeats(s)| :: !SameHeading(DropRepeats(s)[i], DropRepeats(s)[i - 1])
    decreases |s|
  {
    if s != [] {
      DropRepeatsNoRepeats(s[..|s| - 1]);
    }
  }

  /** Every entry kept comes from the input, and distinct entries stay distinct. */
  lemma {:induction false} DropRepeatsKeeps(s: seq<Entry>)
    ensures forall x | x in DropRepeats(s) :: x in s
    ensures Distinct(s) ==> Distinct(DropRepeats(s))
    decreases |s|
  {
    if s != [] {
      var init := s[..|s| - 1];
      DropRepeatsKeeps(init);
      var r0 := DropRepeats(init);
      var x := s[|s| - 1];
      assert s == init + [x];
      if Distinct(s) && (r0 == [] || !SameHeading(x, r0[|r0| - 1])) {
        DistinctInit(s);
        assert x !in init by {
          forall k | 0 <= k < |init| ensures init[k] != x {
            assert init[k] == s[k];
          }
        }
        DistinctAppend(r0, x);
      }
    }
  }

  /** The consecutive-duplicate loop. */
  method RemoveConsecutiveDuplicates(outline: seq<Entry>) returns (r: seq<Entry>)
    ensures r == DropRepeats(outline)
  {
    r := [];
    var last: Option<Entry> := None;
    for i := 0 to |outline|
      invariant r == DropRepeats(outline[..i])
      invariant last == (if r == [] then None else Some(r[|r| - 1]))
    {
      assert outline[..i + 1][..i] == outline[..i];
      var item := outline[i];
      if last.None? || !SameHeading(item, last.value) {
        r := r + [item];
        last := Some(item);
      }
    }
    assert outline[..|outline|] == outline;
  }

  // ---- Flyer fallback ----

  const FLYER_KEYWORDS: seq<string> :=
    ["option", "hope to see", "invited", "join", "welcome", "celebrate", "!", "pathway"]

  /** A line worth proposing as a flyer headline. */
  predicate IsFlyerCandidate(t: string) {
    t != [] && !IsFakeHeading(t) && !IsAddressOrCity(t)
    && (ContainsAny(Lower(t), FLYER_KEYWORDS) || (IsUpperStr(t) && |t| < 40))
  }

  /** What a line of text adds to the flyer candidates. */
  function FlyerEntry(t: string): seq<string> {
    if IsFlyerCandidate(t) then [if EndsWith(t, " ") then t else t + " "] else []
  }

  /** The flyer candidates of the lines of page 1, each with a trailing space. */
  function FlyerCandidates(lines: seq<Line>): seq<string>
    decreases |lines|
  {
    if lines == [] then []
    else FlyerCandidates(lines[..|lines| - 1]) + FlyerEntry(LineText(lines[|lines| - 1]))
  }

  lemma FlyerCandidatesStep(lines: seq<Line>, i: nat)
    requires i < |lines|
    ensures FlyerCandidates(lines[..i + 1]) == FlyerCandidates(lines[..i]) + FlyerEntry(LineText(lines[i]))
  {
    assert lines[..i + 1][..i] == lines[..i];
  }

  method CollectFlyerCandidates(page: Page) returns (cands: seq<string>)
    ensures cands == FlyerCandidates(page.lines)
  {
    cands := [];
    var lines := page.lines;
    for i := 0 to |lines|
      invariant cands == FlyerCandidates(lines[..i])
    {
      FlyerCandidatesStep(lines, i);
      var t := LineText(lines[i]);
      if t == [] {
        continue;
      }
      if IsFakeHeading(t) || IsAddressOrCity(t) {
        continue;
      }
      if ContainsAny(Lower(t), FLYER_KEYWORDS) || (IsUpperStr(t) && |t| < 40) {
        cands := cands + [if EndsWith(t, " ") then t else t + " "];
      }
    }
    assert lines[..|lines|] == lines;
  }

  /** sum(kw in s for kw in keywords) */
  function KeywordHits(s: string, keywords: seq<string>): nat
    decreases |keywords|
  {
    if keywords == [] then 0
    else KeywordHits(s, keywords[..|keywords| - 1]) + (if Contains(s, keywords[|keywords| - 1]) then 1 else 0)
  }

  /** The sort key of a candidate: contains "!", number of keywords, length. */
  datatype Rank = Rank(bang: bool, hits: nat, len: nat)

  function RankOf(x: string): Rank {
    Rank(Contains(x, "!"), KeywordHits(Lower(x), FLYER_KEYWORDS), |x|)
  }

  /** a sorts strictly after b in ascending key order. */
  predicate Outranks(a: Rank, b: Rank) {
    (a.bang && !b.bang)
    || (a.bang == b.bang && (a.hits > b.hits || (a.hits == b.hits && a.len > b.len)))
  }

  /** sorted(cands, key=RankOf, reverse=True)[0]: the stable reverse sort puts
      first the earliest candidate whose key is maximal. */
  function BestCandidate(cands: seq<string>): (r: nat)
    requires cands != []
    ensures r < |cands|
    ensures forall j | 0 <= j < |cands| :: !Outranks(RankOf(cands[j]), RankOf(cands[r]))
    ensures forall j | 0 <= j < r :: Outranks(RankOf(cands[r]), RankOf(cands[j]))
    decreases |cands|
  {
    if |cands| == 1 then 0
    else
      var init := cands[..|cands| - 1];
      var r := BestCandidate(init);
      assert forall j | 0 <= j < |init| :: init[j] == cands[j];
      if Outranks(RankOf(cands[|cands| - 1]), RankOf(init[r])) then |cands| - 1 else r
  }

  /** The outline the flyer branch produces. */
  function FlyerOutline(first: Page, outline: seq<Entry>): seq<Entry> {
    var cands := FlyerCandidates(first.lines);
    if cands != [] then [Entry(1, cands[BestCandidate(cands)], 0)]
    else if outline != [] then [outline[0]]
    else []
  }

  // ---- extract_headings ----

  /** A one-page document, or a two-page one whose outline came out empty. */
  predicate FlyerCase(doc: Document, kept: seq<Entry>) {
    |doc| == 1 || (|doc| == 2 && kept == [])
  }

  /** all(o["text"].strip() == title.strip() for o in outline) */
  predicate AllRepeatTitle(outline: seq<Entry>, title: string) {
    forall i | 0 <= i < |outline| :: Strip(outline[i].text) == Strip(title)
  }

  /** The outline after the final clean-up. */
  function Cleared(outline: seq<Entry>, title: string): seq<Entry> {
    if outline != [] && Strip(title) != [] && AllRepeatTitle(outline, title) then [] else outline
  }

  function WithTrailingSpace(title: string): string {
    if title != [] && !EndsWith(title, " ") then title + " " else title
  }

  /** The font levels of the document. */
  function DocLevels(doc: Document): seq<int> {
    Levels(Stats(AllSpans(doc)))
  }

  /** The title of the document as extract_title gives it. */
  ghost function DocTitle(doc: Document): string {
    if doc == [] then "" else TitleOf(doc[0], DocLevels(doc))
  }

  /** The outline before consecutive repeats are removed. */
  ghost function Collected(doc: Document): seq<Entry> {
    Dedup(DocEntries(doc, LineEntryOf(DocTitle(doc), DocLevels(doc))))
  }

  /** The outline before the final clean-up. */
  ghost function Picked(doc: Document): seq<Entry> {
    var kept := DropRepeats(Collected(doc));
    if FlyerCase(doc, kept) then FlyerOutline(doc[0], Collected(doc)) else kept
  }

  /** The title and outline extract_headings returns. */
  ghost function HeadingsOf(doc: Document): (string, seq<Entry>) {
    if DocLevels(doc) == [] then ("", [])
    else (WithTrailingSpace(DocTitle(doc)), Cleared(Picked(doc), DocTitle(doc)))
  }

  /** A document with a span has a page and a font level. */
  lemma NonEmptyDocument(doc: Document)
    ensures Stats(AllSpans(doc)).order != [] <==> DocLevels(doc) != []
    ensures DocLevels(doc) != [] ==> |doc| > 0
  {
    LevelsEmpty(AllSpans(doc));
  }

  /** extract_headings */
  method ExtractHeadings(doc: Document) returns (title: string, outline: seq<Entry>)
    ensures (title, outline) == HeadingsOf(doc)
  {
    var h := BuildFontStats(doc);
    NonEmptyDocument(doc);
    if h.order == [] {
      return "", [];
    }
    var levels := Levels(h);
    title := ExtractTitle(doc[0], levels);
    var collected := CollectOutline(doc, LineEntryOf(title, levels));
    assert collected == Collected(doc);
    var result := RemoveConsecutiveDuplicates(collected);
    if |doc| == 1 || (|doc| == 2 && result == []) {
      var cands := CollectFlyerCandidates(doc[0]);
      if cands != [] {
        result := [Entry(1, cands[BestCandidate(cands)], 0)];
      } else if collected != [] {
        result := [collected[0]];
      } else {
        result := [];
      }
    }
    assert result == Picked(doc);
    if result != [] && Strip(title) != [] && AllRepeatTitle(result, title) {
      result := [];
    }
    if title != [] && !EndsWith(title, " ") {
      title := title + " ";
    }
    outline := result;
  }

  // ---- Properties of the result ----

  /** A document without any span gets an empty title and outline; any
      other title is empty or ends in a space. */
  lemma HeadingsTitle(doc: Document)
    ensures AllSpans(doc) == [] ==> HeadingsOf(doc) == ("", [])
    ensures HeadingsOf(doc).0 == [] || EndsWith(HeadingsOf(doc).0, " ")
  {
    LevelsEmpty(AllSpans(doc));
  }

  /** The entries collected before the flyer fallback are well formed, lie on
      pages that are not form pages and differ from the title; no two share
      level, text and page and no two consecutive ones share level and text. */
  lemma CollectedShape(doc: Document)
    ensures var kept := DropRepeats(Collected(doc));
      && (forall e | e in kept :: EntryOk(e, doc, DocTitle(doc)))
      && Distinct(kept)
      && (forall i | 0 < i < |kept| :: !SameHeading(kept[i], kept[i - 1]))
  {
    var entryOf := LineEntryOf(DocTitle(doc), DocLevels(doc));
    var entries := DocEntries(doc, entryOf);
    assert doc[..|doc|] == doc;
    LineEntryOfShaped(DocTitle(doc), DocLevels(doc));
    DocEntriesOk(doc, entryOf, DocTitle(doc), |doc|);
    DedupDistinct(entries);
    DropRepeatsKeeps(Collected(doc));
    DropRepeatsNoRepeats(Collected(doc));
  }

  /** Outside the flyer case, the returned outline is the collected one or
      empty, with every property above, measured against the returned title. */
  lemma HeadingsRegular(doc: Document)
    requires !FlyerCase(doc, DropRepeats(Collected(doc)))
    ensures var (title, outline) := HeadingsOf(doc);
      && (forall e | e in outline :: EntryOk(e, doc, title))
      && Distinct(outline)
      && (forall i | 0 < i < |outline| :: !SameHeading(outline[i], outline[i - 1]))
  {
    if DocLevels(doc) != [] {
      CollectedShape(doc);
      var title := DocTitle(doc);
      StripTrailingSpace(title, " ");
      assert Strip(WithTrailingSpace(title)) == Strip(title);
      forall e | e in HeadingsOf(doc).1 ensures EntryOk(e, doc, HeadingsOf(doc).0) {
        assert EntryOk(e, doc, title);
      }
    }
  }

  /** In the flyer case the outline has at most one entry: the top-ranked
      candidate headline as an H1 on page 0 when there is a candidate,
      otherwise at most the first entry collected. */
  lemma HeadingsFlyer(doc: Document)
    requires FlyerCase(doc, DropRepeats(Collected(doc)))
    ensures var cands := FlyerCandidates(doc[0].lines);
      && |HeadingsOf(doc).1| <= 1
      && (cands != [] && HeadingsOf(doc).1 != [] ==>
            HeadingsOf(doc).1[0] == Entry(1, cands[BestCandidate(cands)], 0))
      && (cands == [] && HeadingsOf(doc).1 != [] ==> HeadingsOf(doc).1[0] == Collected(doc)[0])
  {
    if DocLevels(doc) != [] {
      var picked := Picked(doc);
      assert picked == FlyerOutline(doc[0], Collected(doc));
      assert HeadingsOf(doc).1 == Cleared(picked, DocTitle(doc));
    }
  }

  /** The clean-up never leaves an outline that only repeats a non-blank title. */
  lemma ClearedNotOnlyTitle(outline: seq<Entry>, title: string)
    ensures var r := Cleared(outline, title);
      r != [] && Strip(title) != [] ==> !AllRepeatTitle(r, title)
  {
  }

  /** The outline is never left holding only repetitions of a non-blank title. */
  lemma HeadingsNotOnlyTitle(doc: Document)
    ensures var (title, outline) := HeadingsOf(doc);
      outline != [] && Strip(title) != [] ==> !AllRepeatTitle(outline, title)
  {
    if DocLevels(doc) != [] {
      var title := DocTitle(doc);
      StripTrailingSpace(title, " ");
      assert Strip(WithTrailingSpace(title)) == Strip(title);
      ClearedNotOnlyTitle(Picked(doc), title);
    }
  }
}
