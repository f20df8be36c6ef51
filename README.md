# PDF outline and section ranking, modelled in Dafny

This project models the decision logic of a two-stage PDF heading pipeline.

- **Outline builder** (`adobe_round1A/heading_extractor.py`). For one document it resolves a title and an outline of H1–H4 headings with their pages. The steps:
  - It builds a histogram of rounded font sizes over every span and keeps the six largest sizes as font levels.
  - It assembles the title from the largest-font runs of page 1. The runs are grouped into rows by vertical position and merged in one ascending sweep. Separator-only and repeated lines are dropped, and so are noise and address lines. Repeated words are removed greedily with a look-back of two kept words. One fixed replacement exists for the "RFP … Proposal" title.
  - It turns every line of every page that is not a form page into a candidate entry. The level comes from section numbering, falling back to the rank of the line's font among the levels.
  - It de-duplicates entries by (level, text, page), then removes consecutive repeats of (level, text).
  - For a one-page flyer (or a two-page document with an empty outline), it picks a single headline instead.
  - It clears an outline that only repeats the title.
- **Section ranker** (`adobe_round1B/extractor1B.py`). For a set of documents it chooses the five most relevant sections and excerpts the text under each. The steps:
  - Heading candidates are lines of 7 to 89 characters that are neither all lower case nor all digits.
  - Candidates are sorted from the largest font down, then by page, and de-duplicated by text.
  - The first seven of each document are ranked by the first keyword group their title mentions. Those ranked 5 or better are pooled.
  - The pool is sorted by (rank, page) and the first five are kept.
  - For each kept section, the lines after the heading's line on its page are collected. Collection stops at a blank line, at a short line without lower-case letters, or once the text passes 700 characters.

Every function of the two core files has a counterpart. Pure classifiers are Dafny functions and predicates. Loops are methods whose `ensures` ties the result to a specification function. Lemmas prove what those functions promise: shapes, bounds, order, permutation and stability, de-duplication, first-match choice, and round trips.

Modules, one file each:
- `Layout`: pages of lines of spans.
- `Text`: ASCII string primitives with Python's meaning.
- `Seqs`: generic filter, map and concatenate.
- `Sorting`: Python's stable `sorted` on pair keys.
- `Classify`: the text classifiers.
- `FormPage`: the form-page detector.
- `FontProfile`: the size histogram and font levels.
- `Title`: the title resolver.
- `Outline`: the outline builder.
- `Ranker`: the multi-document candidate extraction and `assign_importance`.
- `Excerpt`: `extract_section_text`.
- `Selection`: the ranking part of `main`.

The title's token de-duplication has a second guard (heading_extractor.py:11) that drops a one-character token equal to the last kept one. That guard never decides. The first guard (line 9) already drops any token equal to either of the last two kept tokens, whatever its length. `Title.LastGuardSubsumed` proves this. The model keeps both guards as written.

Where the written design of the system and the code disagree, the model follows the code:

- **Title exclusion in the flyer case.** The design states that no outline entry equals the title. The code guarantees this only on the regular path. A flyer headline is compared with the title only by the final "all entries repeat the title" check. That check is case-sensitive (heading_extractor.py:212). `Outline.HeadingsRegular` and `Outline.HeadingsFlyer` state the two cases separately.
- **Font sizes in the ranker.** The design speaks of rounded font sizes throughout. The ranker's `extract_headings` uses the unrounded size (extractor1B.py:18). See "Left out".

## Model

| member | source | states |
|---|---|---|
| Text.StripShape | adobe_round1A/heading_extractor.py:24 | `strip()` removes a whitespace prefix and suffix and leaves a text that neither starts nor ends with whitespace |
| Text.StripUnique | adobe_round1A/heading_extractor.py:24 | whitespace around a text with non-space ends strips back to exactly that text |
| Text.StripIdempotent | adobe_round1A/heading_extractor.py:59 | stripping twice is stripping once |
| Text.LetterCountStrip | adobe_round1A/heading_extractor.py:39 | stripping removes no ASCII letter, so the letter count of `t` is that of the original text |
| Text.UpperFixed | adobe_round1B/extractor1B.py:46 | a text equals its upper-case form exactly when it has no lower-case letter |
| Text.Find | adobe_round1B/extractor1B.py:39 | `find` returns -1 exactly when the pattern does not occur, and otherwise the first position where it occurs |
| Text.JoinPrefixShorter | adobe_round1B/extractor1B.py:49 | joining a prefix of the paragraph never gives a longer text than joining all of it |
| Text.ContainsInStrip | adobe_round1A/heading_extractor.py:24-29 | a pattern without whitespace at its ends that occurs in the lower-cased text also occurs in the lower-cased stripped text |
| Text.EndsWithStrip | adobe_round1A/heading_extractor.py:24-28 | a suffix without whitespace at its ends that ends the text also ends the stripped text |
| Classify.AddressKeywords | adobe_round1A/heading_extractor.py:23-30 | a text is an address or location whenever it contains "rsvp" or one of the place names in any letter case, or ends with one of the two ZIP-code suffixes, whatever whitespace surrounds it |
| Classify.IsFakeHeading | adobe_round1A/heading_extractor.py:32-42 | every text with fewer than 3 ASCII letters (the empty text included) and every address/location text is noise |
| Classify.NoiseIgnoresTrailingSpace | adobe_round1A/heading_extractor.py:163-166 | appending whitespace changes neither the noise, the address nor the heading-like verdict, so the re-check on the padded text never rejects a line that passed |
| Classify.IsHeadingLike | adobe_round1A/heading_extractor.py:58-67 | false for a stripped text shorter than 3 characters or opening with a bullet (`●`, `-`, `•`, `*`, `o`); otherwise true for any text of at most 15 words not ending in `.` or `;` |
| Classify.HeadingLevelByNumbering | adobe_round1A/heading_extractor.py:69-80 | the level is always in 0..3, and the three special section names give 1 whatever their case |
| Classify.NumberedLevel3 | adobe_round1A/heading_extractor.py:74-75 | a text opening with `a.b.c`, where a, b and c are digit strings, gets level 3 |
| Classify.NumberedLevel2 | adobe_round1A/heading_extractor.py:76-77 | a text opening with `a.b` and not continuing as `a.b.c` gets level 2 |
| Classify.NumberedLevel1 | adobe_round1A/heading_extractor.py:78-79 | a text opening with `a.` not followed by a digit gets level 1 |
| Classify.Collapse | adobe_round1A/heading_extractor.py:83 | `re.sub(r'\s+', ' ', …)` leaves single spaces only and keeps a non-space first character |
| Classify.CollapseFixed | adobe_round1A/heading_extractor.py:83 | a single-spaced text not opening with a space is left unchanged by the collapse |
| Classify.ReplaceSpaceBangShape | adobe_round1A/heading_extractor.py:83 | `.replace(' !', '!')` keeps single spacing and leaves no space before `!` |
| Classify.ReplaceSpaceBangFixed | adobe_round1A/heading_extractor.py:83 | a text with no space before `!` is left unchanged by the replacement |
| Classify.NormalizeSpacesShape | adobe_round1A/heading_extractor.py:82-83 | the result is single-spaced, has no space before `!`, and neither starts nor ends with a space |
| Classify.NormalizeSpacesFixed | adobe_round1A/heading_extractor.py:82-83 | a text already of that shape is returned unchanged |
| Classify.NormalizeSpacesIdempotent | adobe_round1A/heading_extractor.py:82-83 | normalising twice is normalising once |
| FormPage.IsLikelyFormPage | adobe_round1A/heading_extractor.py:44-56 | the counting loop returns exactly the form-page verdict on the page's spans |
| FormPage.CountLine | adobe_round1A/heading_extractor.py:49-55 | after one line's spans the two counters are the label and text counts of all spans read so far |
| FormPage.FormPageThreshold | adobe_round1A/heading_extractor.py:56 | a page with at most 8 non-empty spans is never a form; above 8 it is one exactly when 10·labels > 6·texts; a form page has a label, so the ratio never divides by zero |
| FormPage.LabelsAreTexts | adobe_round1A/heading_extractor.py:52-55 | the label count never exceeds the text count |
| FormPage.AllLabelsIsForm | adobe_round1A/heading_extractor.py:52-55 | when every span is a non-empty label, both counts equal the number of spans |
| FormPage.CountsAppend | adobe_round1A/heading_extractor.py:50-55 | one more span adds one to the text count exactly when it is non-empty after stripping, and one to the label count exactly when it is also label-shaped |
| FontProfile.BuildFontStats | adobe_round1A/heading_extractor.py:121-130 | the page loop builds exactly the histogram of the document's spans |
| FontProfile.TallyPage | adobe_round1A/heading_extractor.py:125-130 | one page adds its spans to the histogram |
| FontProfile.TallySpans | adobe_round1A/heading_extractor.py:128-130 | one line adds its spans to the histogram |
| FontProfile.StatsCounts | adobe_round1A/heading_extractor.py:121-130 | the histogram is well formed, holds exactly the sizes that occur, and counts each size's spans |
| FontProfile.SortedSizes | adobe_round1A/heading_extractor.py:131 | sorting the distinct sizes by decreasing size gives a strictly decreasing permutation of them |
| FontProfile.TopLargest | adobe_round1A/heading_extractor.py:134 | a size left out of the first six is smaller than all six of them |
| FontProfile.LevelsDescending | adobe_round1A/heading_extractor.py:131-134 | there are at most 6 levels, strictly decreasing (hence distinct) |
| FontProfile.LevelsLargest | adobe_round1A/heading_extractor.py:131-134 | every level is a size that occurs; a size that occurs but is not a level is smaller than all six levels |
| FontProfile.LevelsEmpty | adobe_round1A/heading_extractor.py:132-133 | the levels are empty exactly when the document has no span |
| Title.Tokens | adobe_round1A/heading_extractor.py:8 | `re.split(r'[\s\-]+', …)` with empty pieces dropped gives non-empty tokens with no whitespace or hyphen |
| Title.SmartDedupeTitleLines | adobe_round1A/heading_extractor.py:4-21 | the token loop and the final formatting compute exactly `DedupeTitle` |
| Title.KeptShape | adobe_round1A/heading_extractor.py:8-14 | no kept token equals either of the two kept just before it, and a token shorter than 3 characters is kept at most once |
| Title.KeepKeepsShape | adobe_round1A/heading_extractor.py:9-13 | appending a token that neither `continue` guard skips keeps that shape |
| Title.KeptSameWords | adobe_round1A/heading_extractor.py:8-14 | de-duplication loses no word: a word is kept exactly when it is a non-empty token of the text |
| Title.LastGuardSubsumed | adobe_round1A/heading_extractor.py:9-12 | the skip decision equals the first guard alone, and a token equal to the last kept one is always skipped |
| Title.KeptTokens | adobe_round1A/heading_extractor.py:8-13 | every kept word is a token |
| Title.JoinTokensShape | adobe_round1A/heading_extractor.py:15 | joining tokens by spaces gives a single-spaced text with non-space ends, empty exactly when there is no token |
| Title.JoinedFixed | adobe_round1A/heading_extractor.py:21 | collapsing and stripping the joined tokens changes nothing |
| Title.DedupeTitleShape | adobe_round1A/heading_extractor.py:15-21 | the result is `""` exactly when no token survives; otherwise it is the fixed RFP title or the kept tokens joined by single spaces plus two spaces; a non-empty result ends in two spaces |
| Title.AddLine | adobe_round1A/heading_extractor.py:93-98 | one line appends its title-sized, non-blank texts to the row at its position |
| Title.BuildRows | adobe_round1A/heading_extractor.py:90-98 | the loop builds exactly the rows (positions in first-seen order, texts per position) of the page |
| Title.RowsOfValid | adobe_round1A/heading_extractor.py:90-98 | each position is listed once and every listed position has its row, like a Python dict |
| Title.SortedRowsAllIn | adobe_round1A/heading_extractor.py:101 | every position of the sorted key list has a row |
| Title.AscendingOrder | adobe_round1A/heading_extractor.py:101 | the sorted positions are strictly ascending |
| Title.ClusterRows | adobe_round1A/heading_extractor.py:99-106 | the sweep, which extends the last cluster in place, computes exactly `Sweep` |
| Title.SweepStep | adobe_round1A/heading_extractor.py:102-106 | whether a row joins the last cluster or starts a new one, its texts land at the end of the clusters read in order |
| Title.SweepKeepsTexts | adobe_round1A/heading_extractor.py:99-106 | clustering loses and reorders no text: the clusters read one after another are the rows read in ascending position |
| Title.CollectTitleLines | adobe_round1A/heading_extractor.py:107-113 | the loop computes exactly `TitleLines` |
| Title.TitleLinesShape | adobe_round1A/heading_extractor.py:107-113 | the title lines are pairwise distinct, non-empty and not made of separators only |
| Title.DropNoiseClean | adobe_round1A/heading_extractor.py:114 | exactly the lines that are neither noise nor address survive, in order |
| Title.ExtractTitle | adobe_round1A/heading_extractor.py:85-118 | the title is `TitleOf`; no levels give `""`; a non-empty title ends in two spaces and is neither noise, address nor an "rsvp" line |
| Title.TitleOfShape | adobe_round1A/heading_extractor.py:115-118 | a non-empty title ends in two spaces and is not rejected |
| Outline.IndexOf | adobe_round1A/heading_extractor.py:158 | the first index holding the size, or none when the size is not a level |
| Outline.LevelOf | adobe_round1A/heading_extractor.py:154-162 | the level is in 1..4 and a numbering level takes precedence; without one, a size first found at index i of the levels gives i + 1 when i < 4 and 4 otherwise, and a size that is not a level gives 4 |
| Outline.AppendedSpace | adobe_round1A/heading_extractor.py:164-165 | a normalised line never ends in a space, so exactly one space is appended and the classifications do not change |
| Outline.EntryForShape | adobe_round1A/heading_extractor.py:149-167 | every entry built from a normalised line has level 1..4, its page, normalised text plus exactly one space, is heading-like, not noise, not an address, and differs from the title after stripping and lower-casing |
| Outline.ShapeOfEntry | adobe_round1A/heading_extractor.py:163-167 | the facts checked before appending hold of the entry built |
| Outline.LineEntryShape | adobe_round1A/heading_extractor.py:148-167 | the same for the entry of any layout line |
| Outline.LineEntryOfShaped | adobe_round1A/heading_extractor.py:148-167 | the line-to-entry function of the document only produces well-shaped entries |
| Outline.LinesEntriesShape | adobe_round1A/heading_extractor.py:145-167 | every candidate entry of a page is well-shaped for that page |
| Outline.DocEntriesOk | adobe_round1A/heading_extractor.py:140-167 | every candidate entry is well-shaped, lies on a page 1..#pages, and that page is not a form |
| Outline.DedupStep | adobe_round1A/heading_extractor.py:168-174 | a new key is appended once; a key already seen leaves the outline unchanged |
| Outline.DedupDistinct | adobe_round1A/heading_extractor.py:138-174 | the outline has no two equal (level, text, page) entries and holds exactly the candidate entries |
| Outline.AddCandidate | adobe_round1A/heading_extractor.py:167-174 | one line's candidate is appended when it is new, and the seen set stays the set of outline entries |
| Outline.OutlinePage | adobe_round1A/heading_extractor.py:145-174 | the loop over one page's lines extends the outline and seen set by exactly that page's new entries |
| Outline.CollectOutline | adobe_round1A/heading_extractor.py:138-174 | the page loop, which skips form pages, computes exactly the de-duplicated candidate entries |
| Outline.DropRepeatsIsKeepChanges | adobe_round1A/heading_extractor.py:176-182 | an entry is kept exactly when its (level, text) differs from the previous entry's, and the last kept entry matches the last entry read |
| Outline.DropRepeatsNoRepeats | adobe_round1A/heading_extractor.py:176-182 | no two consecutive kept entries share (level, text) |
| Outline.DropRepeatsKeeps | adobe_round1A/heading_extractor.py:176-182 | every kept entry comes from the outline, and distinct entries stay distinct |
| Outline.RemoveConsecutiveDuplicates | adobe_round1A/heading_extractor.py:177-182 | the loop computes exactly `DropRepeats` |
| Outline.CollectFlyerCandidates | adobe_round1A/heading_extractor.py:187-198 | the scan of page 1 computes exactly the flyer candidates, each padded with one trailing space |
| Outline.BestCandidate | adobe_round1A/heading_extractor.py:200-206 | the chosen candidate has the greatest (contains `!`, keyword hits, length) key, and every earlier candidate has a strictly smaller key, so ties go to the earliest as Python's stable sort gives |
| Outline.NonEmptyDocument | adobe_round1A/heading_extractor.py:131-134 | the levels are empty exactly when the histogram is; with levels the document has a first page |
| Outline.ExtractHeadings | adobe_round1A/heading_extractor.py:120-216 | the whole procedure computes exactly `HeadingsOf` |
| Outline.HeadingsTitle | adobe_round1A/heading_extractor.py:132-133 | a document with no span gives an empty title and outline; a non-empty title always ends in a space (line 215) |
| Outline.CollectedShape | adobe_round1A/heading_extractor.py:138-182 | before the flyer fallback every entry is well-shaped on a non-form page, no two entries are equal, and no two consecutive ones share (level, text) |
| Outline.HeadingsRegular | adobe_round1A/heading_extractor.py:138-216 | outside the flyer case the final outline keeps all of those properties |
| Outline.HeadingsFlyer | adobe_round1A/heading_extractor.py:185-210 | in the flyer case the outline has at most one entry: the best candidate at H1 on page 0, or else the first pre-fallback entry |
| Outline.ClearedNotOnlyTitle | adobe_round1A/heading_extractor.py:212-213 | after the clean-up a non-empty outline never consists only of repeats of a non-blank title |
| Outline.HeadingsNotOnlyTitle | adobe_round1A/heading_extractor.py:212-213 | the final outline never consists only of repeats of a non-blank title |
| Sorting.SortBySorted | adobe_round1B/extractor1B.py:92 | `sorted` returns its input in non-decreasing key order |
| Sorting.SortByPermutes | adobe_round1B/extractor1B.py:92 | `sorted` returns a permutation of its input |
| Sorting.SortByStable | adobe_round1B/extractor1B.py:92 | elements with equal keys keep their relative order |
| Ranker.LineHeadingSpec | adobe_round1B/extractor1B.py:16-23 | a line gives a heading exactly when its joined text is 7 to 89 characters, not all lower case and not all digits; the heading has its page, the stripped text and the largest span size of the line |
| Ranker.LinesHeadingsSpec | adobe_round1B/extractor1B.py:15-23 | a page's headings are exactly those of its lines, all on that page |
| Ranker.DocCandidatesSpec | adobe_round1B/extractor1B.py:10-23 | the candidates are exactly the headings of the lines of the document's pages |
| Ranker.PageHeadings | adobe_round1B/extractor1B.py:15-23 | the loop over one page's lines computes exactly its headings |
| Ranker.CollectCandidates | adobe_round1B/extractor1B.py:10-23 | the page loop computes exactly the document's candidates |
| Ranker.DedupTextSpec | adobe_round1B/extractor1B.py:25-31 | de-duplication keeps only input headings, with pairwise distinct texts, and every input text is still present |
| Ranker.DedupTextSorted | adobe_round1B/extractor1B.py:24-31 | on input sorted by (size descending, page), de-duplication keeps the order |
| Ranker.DedupTextBest | adobe_round1B/extractor1B.py:24-31 | on sorted input the heading kept for a text has the best (size, page) of all headings with that text |
| Ranker.DedupHeadings | adobe_round1B/extractor1B.py:25-31 | the loop with its seen set computes exactly `DedupText` |
| Ranker.ExtractHeadings | adobe_round1B/extractor1B.py:7-32 | the procedure computes exactly `Headings` |
| Ranker.HeadingsSpec | adobe_round1B/extractor1B.py:7-32 | every result comes from a line of the document; the texts are distinct; the order is by size descending then page; every candidate text is present, carried by its best-placed heading |
| Ranker.HeadingsPages | adobe_round1B/extractor1B.py:21 | every heading's page is in 1..#pages |
| Ranker.Importance | adobe_round1B/extractor1B.py:53-65 | the rank is 1..5 or the fallback 10 |
| Ranker.FirstGroupSpec | adobe_round1B/extractor1B.py:53-65 | the first-match reading of a group table gives rank g + 1 exactly when group g is mentioned and no earlier group is, and the fallback exactly when none is |
| Ranker.ImportanceSpec | adobe_round1B/extractor1B.py:53-65 | `assign_importance` is that first-match reading of its five keyword groups, so a title is ranked by the first group it mentions ("Nightlife Tips" is 4 through "tips"), and 5 or better exactly when it mentions some group |
| Excerpt.SplitLines | adobe_round1B/extractor1B.py:43 | `splitlines()` gives pieces free of line breaks, and no piece exactly for the empty text |
| Excerpt.SplitLinesJoin | adobe_round1B/extractor1B.py:43 | on text whose only breaks are `\n`, joining the lines with `\n` (plus a final `\n` if there was one) gives the text back |
| Excerpt.ExtractSectionText | adobe_round1B/extractor1B.py:35-51 | the loop with its two `break`s computes exactly `SectionText`; a heading that does not occur case-insensitively gives `""` |
| Excerpt.ExcerptLines | adobe_round1B/extractor1B.py:45-48 | the paragraph is made of the stripped lines taken in order from the start of the lines after the heading's line, none blank and none a short line without lower case |
| Excerpt.ExcerptExtends | adobe_round1B/extractor1B.py:44-50 | the loop only appends to the paragraph |
| Excerpt.ExcerptUnderCap | adobe_round1B/extractor1B.py:49-50 | the paragraph without its last line is within 700 characters, so only the last line can push it past the cap |
| Excerpt.ExcerptStops | adobe_round1B/extractor1B.py:45-50 | when lines remain, the next one is a stopping line or the cap was passed |
| Excerpt.ExcerptShape | adobe_round1B/extractor1B.py:44-50 | the loop's paragraph satisfies all three properties above |
| Excerpt.ExcerptNotShorter | adobe_round1B/extractor1B.py:44-50 | two paragraphs with those properties have the same length |
| Excerpt.ExcerptUnique | adobe_round1B/extractor1B.py:44-50 | those properties determine the paragraph: the loop's result is the only one that has them |
| Selection.FindInput | adobe_round1B/extractor1B.py:97-98 | the document named by a section is found when some input has that name, and never when none has |
| Selection.DocSectionsSpec | adobe_round1B/extractor1B.py:82-90 | a document contributes at most 7 candidates; each carries the document's name, a heading of its first seven with that heading's title and page, and that title's rank, which is 1..5; every such heading ranked 5 or better contributes |
| Selection.AllSectionsSpec | adobe_round1B/extractor1B.py:78-90 | the pool holds exactly the candidates of the documents |
| Selection.ExtractedSpec | adobe_round1B/extractor1B.py:92-93 | at most 5 sections are extracted (fewer only when the pool is smaller), sorted by (rank, page); they form a sub-multiset of the pool, so no section is taken more often than it was pooled; a pooled section left out ranks no better than any extracted one |
| Selection.TopMembers | adobe_round1B/extractor1B.py:93 | the first five of a permutation of the pool form a sub-multiset of the pool |
| Selection.TopBest | adobe_round1B/extractor1B.py:93 | a section outside the first five of the sorted pool ranks no better than each of them |
| Selection.ExtractedStable | adobe_round1B/extractor1B.py:92 | sections with the same (rank, page) keep their discovery order |
| Selection.ExtractedFromInputs | adobe_round1B/extractor1B.py:78-93 | every extracted section's rank is that of its title and is 1..5, and it lies on a page of a document of that name |
| Selection.RefineSpec | adobe_round1B/extractor1B.py:96-106 | a section on a page of a named document is analysed from that page's text |
| Selection.AnalysisSpec | adobe_round1B/extractor1B.py:95-106 | the analysis has one entry per extracted section, in order, with its document and page and the excerpt under its title on that page |
| Selection.RankHeadings | adobe_round1B/extractor1B.py:82-90 | the loop over the first seven headings computes exactly the document's candidates |
| Selection.CollectSections | adobe_round1B/extractor1B.py:78-90 | the document loop computes exactly the pool |
| Selection.AnalyseSections | adobe_round1B/extractor1B.py:95-106 | the loop computes exactly the analysis of the given sections |
| Selection.RankSections | adobe_round1B/extractor1B.py:78-106 | `main`'s ranking part gives exactly the extracted sections and their analysis |

## Left out

- **The PDF library.** `fitz.open` and `page.get_text` are not modelled. The model receives the layout (pages of lines of spans) and each page's plain text as inputs (`Selection.Input`).
- **Position of a line.** The y position belongs to the line, because the code reads the line's bounding box, not the span's.
- **PDF blocks are flattened.** A block without lines contributes nothing, and the code depends on nothing else about block boundaries.
- **Float geometry.** Sizes are integers: the value `round(span["size"])` yields. A line's position is an integer in tenths, and the 2.5 tolerance is 25 tenths. Python's float rounding (banker's rounding, binary representation) is not modelled.
- Ranker.LineHeading: span sizes are these integer sizes, whereas the code compares unrounded floats (extractor1B.py:18, 24). Two sizes that round to the same integer are equal in the model, so the model may order such headings by page where the code orders them by size.
- **Regular expressions** are written out as ASCII predicates over characters, and the `re.search` of the RFP case as an existence predicate.
- **Case and character classes.** `lower`, `upper`, `isupper`, `islower` and `isdigit` follow their ASCII meaning. Whitespace is the ASCII part of `str.isspace()`, and `splitlines()` uses its full break set. Unicode case folding and non-ASCII whitespace and digits are not modelled.
- **Corpus literals.** The place names, ZIP suffixes, boilerplate prefix, label set and fixed RFP title are kept verbatim as named constants.
- **I/O and output.** `adobe_round1A/main.py` is not part of this model. Neither are the JSON reading and writing, `os.path.join`, the metadata block, the `datetime.now()` timestamp and the `print` of `main` (extractor1B.py:67-76, 108-116).
- **File names and page text.**
  - Files are identified by name: `Selection.InputsOk` asks that inputs with the same file name be the same input, and that each have one text per page.
  - `Selection.PageText` yields `""` where the code would fail (no such file, page out of range). `Selection.RefineSpec` shows that this does not happen for extracted sections.
- **Output strings.** A heading level is its number (1 for "H1"). Python dictionaries are a key list in insertion order plus a map.
- **Exceptions.** A failure such as an unreadable file aborts the batch in the code. The model does not model exceptions.
