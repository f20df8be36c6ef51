/** The title resolver of the outline builder: collect the largest-font runs
    of the first page, group them into rows by vertical position, merge
    neighbouring rows in one ascending sweep, drop noise, and remove repeated
    words (extract_title and smart_dedupe_title_lines,
    heading_extractor.py:4-21 and 85-118). */
module Title {
  import opened Text
  import opened Layout
  import opened Classify
  import opened Sorting
  import opened Seqs

  /** The one title the proposal-style special case returns (corpus-specific). */
  const RFP_TITLE: string :=
    "RFP:Request for Proposal To Present a Proposal for Developing the Business Plan for the Ontario Digital Library  "

  /** Two rows whose positions differ by at most 2.5 units (25 tenths) belong to
      one title line. */
  const ROW_TOLERANCE: int := 25

  // ---- smart_dedupe_title_lines (heading_extractor.py:4-21) ----

  /** The separators of re.split(r'[\s\-]+', ...). */
  predicate IsTokenSep(c: char) { IsSpace(c) || c == '-' }

  predicate IsToken(w: string) { |w| > 0 && forall i | 0 <= i < |w| :: !IsTokenSep(w[i]) }

  /** End of the run of non-separators starting at i. */
  function RunEnd(s: string, i: nat): (j: nat)
    requires i <= |s|
    ensures i <= j <= |s| && (j == |s| || IsTokenSep(s[j]))
    ensures forall k | i <= k < j :: !IsTokenSep(s[k])
    decreases |s| - i
  {
    if i < |s| && !IsTokenSep(s[i]) then RunEnd(s, i + 1) else i
  }

  /** The non-empty pieces of re.split(r'[\s\-]+', s), in order (the empty
      pieces it yields at either end are the ones the loop skips first). */
  function Tokens(s: string): (r: seq<string>)
    ensures forall k | 0 <= k < |r| :: IsToken(r[k])
    decreases |s|
  {
    if s == [] then []
    else if IsTokenSep(s[0]) then Tokens(s[1..])
    else
      var n := RunEnd(s, 0);
      [s[..n]] + Tokens(s[n..])
  }

  /** parts[-2:] */
  function LastTwo(parts: seq<string>): seq<string> {
    if |parts| <= 2 then parts else parts[|parts| - 2..]
  }

  function LastOr(parts: seq<string>, default: string): string {
    if parts == [] then default else parts[|parts| - 1]
  }

  /** The two `continue` guards of the token loop, the second of which never
      decides (see LastGuardSubsumed). */
  predicate SkipToken(parts: seq<string>, last: string, w: string) {
    (w == [] || w in LastTwo(parts) || (|w| < 3 && w in parts)) || (|w| < 2 && w == last)
  }

  /** The second guard skips only a token equal to the last kept one, which
      the first guard, looking back two kept tokens, already skips: a
      repeated token of any length is dropped by the first guard alone. */
  lemma LastGuardSubsumed(parts: seq<string>, w: string)
    ensures SkipToken(parts, LastOr(parts, ""), w) <==>
      (w == [] || w in LastTwo(parts) || (|w| < 3 && w in parts))
    ensures parts != [] && w == parts[|parts| - 1] ==> SkipToken(parts, LastOr(parts, ""), w)
  {
    if parts != [] {
      assert LastTwo(parts)[|LastTwo(parts)| - 1] == parts[|parts| - 1];
    }
  }

  /** The tokens the loop keeps, after it has seen `tokens`. */
  function Kept(tokens: seq<string>): seq<string>
    decreases |tokens|
  {
    if tokens == [] then []
    else
      var parts := Kept(tokens[..|tokens| - 1]);
      var w := tokens[|tokens| - 1];
      if SkipToken(parts, LastOr(parts, ""), w) then parts else parts + [w]
  }

  /** (RFP[:\s\-]+)(.*?)(Proposal) found at i, with the separators up to j and
      the word "proposal" at k, all without regard to case. */
  predicate RfpAt(s: string, i: nat, j: nat, k: nat) {
    i + 3 < j <= k && k + 8 <= |s|
    && Lower(s[i..i + 3]) == "rfp"
    && (forall m | i + 3 <= m < j :: s[m] == ':' || IsSpace(s[m]) || s[m] == '-')
    && (forall m | j <= m < k :: s[m] != '\n')
    && Lower(s[k..k + 8]) == "proposal"
  }

  /** re.search(r"(RFP[:\s\-]+)(.*?)(Proposal)", s, re.IGNORECASE) succeeds. */
  predicate RfpMatch(s: string) {
    exists i, j, k | 0 <= i <= j <= k <= |s| :: RfpAt(s, i, j, k)
  }

  /** What smart_dedupe_title_lines returns. */
  function DedupeTitle(lines: seq<string>): string {
    var parts := Kept(Tokens(Join(" ", lines)));
    var result := Join(" ", parts);
    if Contains(result, "RFP") && Contains(result, "Proposal") && RfpMatch(result) then RFP_TITLE
    else if result != [] then Strip(Collapse(result)) + "  "
    else ""
  }

  /** smart_dedupe_title_lines: greedy token de-duplication with a look-back
      of two kept tokens, then the proposal special case. */
  method SmartDedupeTitleLines(lines: seq<string>) returns (r: string)
    ensures r == DedupeTitle(lines)
  {
    var full := Join(" ", lines);
    var words := Tokens(full);
    var parts: seq<string> := [];
    var last: string := "";
    for i := 0 to |words|
      invariant parts == Kept(words[..i])
      invariant last == LastOr(parts, "")
    {
      var word := words[i];
      assert words[..i + 1][..i] == words[..i];
      if word == [] || word in LastTwo(parts) || (|word| < 3 && word in parts) {
        continue;
      }
      if |word| < 2 && word == last {
        continue;
      }
      parts := parts + [word];
      last := word;
    }
    assert words[..|words|] == words;
    var result := Join(" ", parts);
    if Contains(result, "RFP") && Contains(result, "Proposal") {
      if RfpMatch(result) {
        return RFP_TITLE;
      }
    }
    r := if result != [] then Strip(Collapse(result)) + "  " else "";
  }

  /** No kept token repeats either of the two kept just before it, and a
      token shorter than three characters is kept at most once. */
  predicate DedupeShape(parts: seq<string>) {
    (forall i, j | 0 <= j < i < |parts| && i - j <= 2 :: parts[i] != parts[j])
    && (forall i, j | 0 <= j < i < |parts| && |parts[i]| < 3 :: parts[i] != parts[j])
  }

  lemma {:induction false} KeptShape(tokens: seq<string>)
    ensures DedupeShape(Kept(tokens))
    decreases |tokens|
  {
    if tokens != [] {
      var parts := Kept(tokens[..|tokens| - 1]);
      KeptShape(tokens[..|tokens| - 1]);
      var w := tokens[|tokens| - 1];
      if !SkipToken(parts, LastOr(parts, ""), w) {
        KeepKeepsShape(parts, w);
      }
    }
  }

  /** Appending a token the loop does not skip keeps the shape. */
  lemma KeepKeepsShape(parts: seq<string>, w: string)
    requires DedupeShape(parts) && !SkipToken(parts, LastOr(parts, ""), w)
    ensures DedupeShape(parts + [w])
  {
    var n := |parts|;
    assert n >= 1 ==> parts[n - 1] in LastTwo(parts);
    assert n >= 2 ==> parts[n - 2] in LastTwo(parts);
    var t := parts + [w];
    forall i, j | 0 <= j < i < |t| && i - j <= 2 ensures t[i] != t[j] {
      if i < n { assert t[i] == parts[i] && t[j] == parts[j]; }
      else { assert t[j] == parts[j]; }
    }
    forall i, j | 0 <= j < i < |t| && |t[i]| < 3 ensures t[i] != t[j] {
      if i < n { assert t[i] == parts[i] && t[j] == parts[j]; }
      else { assert t[j] == parts[j] && parts[j] in parts; }
    }
  }

  /** De-duplication loses no word: every non-empty token is still there. */
  lemma {:induction false} KeptSameWords(tokens: seq<string>)
    ensures forall w :: w in Kept(tokens) <==> w in tokens && w != []
    decreases |tokens|
  {
    if tokens != [] {
      var prefix := tokens[..|tokens| - 1];
      KeptSameWords(prefix);
      var parts := Kept(prefix);
      var w := tokens[|tokens| - 1];
      assert tokens == prefix + [w];
      if SkipToken(parts, LastOr(parts, ""), w) {
        assert w != [] ==> w in parts by {
          if w != [] && w in LastTwo(parts) {
            assert |parts| > 2 ==> LastTwo(parts) == parts[|parts| - 2..];
          }
        }
      }
    }
  }

  lemma {:induction false} JoinTokensShape(parts: seq<string>)
    requires forall k | 0 <= k < |parts| :: IsToken(parts[k])
    ensures var s := Join(" ", parts);
      SingleSpaced(s) && (parts == [] <==> s == [])
      && (s != [] ==> !IsSpace(s[0]) && !IsSpace(s[|s| - 1]))
    decreases |parts|
  {
    if |parts| > 1 {
      var init := parts[..|parts| - 1];
      JoinTokensShape(init);
      var a := Join(" ", init);
      var b := parts[|parts| - 1];
      var s := a + " " + b;
      assert Join(" ", parts) == s;
      forall i | 0 <= i < |s| ensures IsSpace(s[i]) ==> s[i] == ' ' {
        if i < |a| { assert s[i] == a[i]; }
        else if i > |a| { assert s[i] == b[i - |a| - 1]; }
      }
      forall i | 0 <= i < |s| - 1 ensures s[i] == ' ' ==> s[i + 1] != ' ' {
        if i < |a| - 1 { assert s[i] == a[i] && s[i + 1] == a[i + 1]; }
        else if i == |a| - 1 { assert s[i] == a[|a| - 1]; }
        else if i == |a| { assert s[i + 1] == b[0]; }
        else { assert s[i] == b[i - |a| - 1] && s[i + 1] == b[i - |a|]; }
      }
      assert s[|s| - 1] == b[|b| - 1];
    } else if |parts| == 1 {
      assert Join(" ", parts) == parts[0];
    }
  }

  /** The de-duplicated title is empty exactly when no token survives;
      otherwise it is either the kept tokens joined by single spaces followed
      by two spaces, or the fixed proposal title, which ends the same way. */
  lemma DedupeTitleShape(lines: seq<string>)
    ensures DedupeTitle(lines) == [] <==> Kept(Tokens(Join(" ", lines))) == []
    ensures Kept(Tokens(Join(" ", lines))) != [] ==>
      DedupeTitle(lines) == RFP_TITLE || DedupeTitle(lines) == Join(" ", Kept(Tokens(Join(" ", lines)))) + "  "
    ensures DedupeTitle(lines) != [] ==> EndsWith(DedupeTitle(lines), "  ")
  {
    var tokens := Tokens(Join(" ", lines));
    KeptTokens(tokens);
    JoinedFixed(Kept(tokens));
  }

  /** The kept words are all tokens. */
  lemma KeptTokens(tokens: seq<string>)
    requires forall k | 0 <= k < |tokens| :: IsToken(tokens[k])
    ensures forall k | 0 <= k < |Kept(tokens)| :: IsToken(Kept(tokens)[k])
  {
    var parts := Kept(tokens);
    KeptSameWords(tokens);
    forall k | 0 <= k < |parts| ensures IsToken(parts[k]) {
      assert parts[k] in parts;
      var m :| 0 <= m < |tokens| && tokens[m] == parts[k];
    }
  }

  /** Joining tokens by single spaces gives a text that collapsing and
      stripping leave alone. */
  lemma JoinedFixed(parts: seq<string>)
    requires forall k | 0 <= k < |parts| :: IsToken(parts[k])
    ensures Join(" ", parts) == [] <==> parts == []
    ensures Strip(Collapse(Join(" ", parts))) == Join(" ", parts)
  {
    JoinTokensShape(parts);
    var result := Join(" ", parts);
    if result != [] {
      CollapseFixed(result);
      StripFixed(result);
    }
  }

  // ---- extract_title (heading_extractor.py:85-118) ----

  /** span["text"].strip().replace('\n', ' ') */
  function ReplaceNewlines(s: string): (r: string)
    ensures |r| == |s|
  {
    seq(|s|, i requires 0 <= i < |s| => if s[i] == '\n' then ' ' else s[i])
  }

  /** The texts a line contributes to its row: title-sized, non-blank spans. */
  function TitleTexts(spans: seq<Span>, maxSize: int): seq<string>
    decreases |spans|
  {
    if spans == [] then []
    else
      var s := spans[|spans| - 1];
      TitleTexts(spans[..|spans| - 1], maxSize)
      + (if s.size == maxSize && Strip(s.text) != [] then [ReplaceNewlines(Strip(s.text))] else [])
  }

  /** The dictionary y_to_spans: its keys in insertion order and its entries. */
  datatype Rows = Rows(ys: seq<int>, rows: map<int, seq<string>>)

  predicate RowsValid(r: Rows) {
    (forall i | 0 <= i < |r.ys| :: r.ys[i] in r.rows)
    && (forall y | y in r.rows :: y in r.ys)
    && Distinct(r.ys)
  }

  /** y_to_spans.setdefault(y, []).append(...) for each of `texts`. */
  function AddTexts(r: Rows, y: int, texts: seq<string>): Rows {
    if texts == [] then r
    else Rows(if y in r.rows then r.ys else r.ys + [y],
              r.rows[y := (if y in r.rows then r.rows[y] else []) + texts])
  }

  /** y_to_spans after the given lines. */
  function RowsOf(lines: seq<Line>, maxSize: int): Rows
    decreases |lines|
  {
    if lines == [] then Rows([], map[])
    else
      var l := lines[|lines| - 1];
      AddTexts(RowsOf(lines[..|lines| - 1], maxSize), l.y, TitleTexts(l.spans, maxSize))
  }

  lemma {:induction false} RowsOfValid(lines: seq<Line>, maxSize: int)
    ensures RowsValid(RowsOf(lines, maxSize))
    decreases |lines|
  {
    if lines != [] {
      RowsOfValid(lines[..|lines| - 1], maxSize);
    }
  }

  /** Appending one more text to a row is one more step of the dictionary. */
  lemma AddTextsStep(r: Rows, y: int, texts: seq<string>, t: string)
    ensures AddTexts(r, y, texts + [t]) == AddTexts(AddTexts(r, y, texts), y, [t])
  {
    if texts != [] {
      var old0 := if y in r.rows then r.rows[y] else [];
      var mid := AddTexts(r, y, texts);
      assert y in mid.rows && mid.rows[y] == old0 + texts;
      assert old0 + (texts + [t]) == old0 + texts + [t];
      assert mid.rows[y := old0 + texts + [t]] == r.rows[y := old0 + (texts + [t])];
    } else {
      assert texts + [t] == [t];
    }
  }

  lemma TitleTextsStep(spans: seq<Span>, j: nat, maxSize: int)
    requires j < |spans|
    ensures TitleTexts(spans[..j + 1], maxSize) == TitleTexts(spans[..j], maxSize)
      + (if spans[j].size == maxSize && Strip(spans[j].text) != [] then [ReplaceNewlines(Strip(spans[j].text))] else [])
  {
    assert spans[..j + 1][..j] == spans[..j];
  }

  /** The inner span loop of the dictionary build, for one line. */
  method AddLine(r0: Rows, line: Line, maxSize: int) returns (r: Rows)
    ensures r == AddTexts(r0, line.y, TitleTexts(line.spans, maxSize))
  {
    r := r0;
    var spans := line.spans;
    for j := 0 to |spans|
      invariant r == AddTexts(r0, line.y, TitleTexts(spans[..j], maxSize))
    {
      TitleTextsStep(spans, j, maxSize);
      var s := spans[j];
      if s.size == maxSize && Strip(s.text) != [] {
        var txt := ReplaceNewlines(Strip(s.text));
        AddTextsStep(r0, line.y, TitleTexts(spans[..j], maxSize), txt);
        var row := if line.y in r.rows then r.rows[line.y] else [];
        ghost var before := r;
        r := Rows(if line.y in r.rows then r.ys else r.ys + [line.y], r.rows[line.y := row + [txt]]);
        assert r == AddTexts(before, line.y, [txt]);
      } else {
        assert TitleTexts(spans[..j], maxSize) + [] == TitleTexts(spans[..j], maxSize);
      }
    }
    assert spans[..|spans|] == spans;
  }

  /** Builds y_to_spans for the first page. */
  method BuildRows(page: Page, maxSize: int) returns (r: Rows)
    ensures r == RowsOf(page.lines, maxSize)
  {
    r := Rows([], map[]);
    var lines := page.lines;
    for i := 0 to |lines|
      invariant r == RowsOf(lines[..i], maxSize)
    {
      assert lines[..i + 1][..i] == lines[..i];
      r := AddLine(r, lines[i], maxSize);
    }
    assert lines[..|lines|] == lines;
  }

  function Flatten(groups: seq<seq<string>>): seq<string>
    decreases |groups|
  {
    if groups == [] then [] else Flatten(groups[..|groups| - 1]) + groups[|groups| - 1]
  }

  function Abs(x: int): nat { if x < 0 then -x else x }

  predicate AllIn(order: seq<int>, rows: map<int, seq<string>>) {
    forall i | 0 <= i < |order| :: order[i] in rows
  }

  /** The clusters of the ascending sweep over the row positions `order`: a
      row joins the current cluster when it lies within the tolerance of the
      row just before it. */
  function Sweep(order: seq<int>, rows: map<int, seq<string>>): (c: seq<seq<string>>)
    requires AllIn(order, rows)
    ensures |c| <= |order| && (order != [] ==> c != [])
    decreases |order|
  {
    if order == [] then []
    else
      var n := |order|;
      var prev := Sweep(order[..n - 1], rows);
      var y := order[n - 1];
      if n > 1 && Abs(y - order[n - 2]) <= ROW_TOLERANCE then
        prev[..|prev| - 1] + [prev[|prev| - 1] + rows[y]]
      else prev + [rows[y]]
  }

  /** The rows in the order of `order`. */
  function RowsIn(order: seq<int>, rows: map<int, seq<string>>): seq<seq<string>>
    requires AllIn(order, rows)
  {
    seq(|order|, i requires 0 <= i < |order| => rows[order[i]])
  }

  lemma FlattenAppend(a: seq<seq<string>>, b: seq<string>)
    ensures Flatten(a + [b]) == Flatten(a) + b
  {
    assert (a + [b])[..|a|] == a;
  }

  lemma RowsInAppend(order: seq<int>, rows: map<int, seq<string>>)
    requires AllIn(order, rows) && order != []
    ensures RowsIn(order, rows) == RowsIn(order[..|order| - 1], rows) + [rows[order[|order| - 1]]]
  {
  }

  /** Clustering loses no text and keeps the order of the rows: the clusters,
      read one after another, are the rows read in ascending position. */
  lemma {:induction false} SweepKeepsTexts(order: seq<int>, rows: map<int, seq<string>>)
    requires AllIn(order, rows)
    ensures Flatten(Sweep(order, rows)) == Flatten(RowsIn(order, rows))
    decreases |order|
  {
    if order != [] {
      var init := order[..|order| - 1];
      AllInInit(order, rows);
      SweepKeepsTexts(init, rows);
      SweepStep(order, rows);
      RowsInAppend(order, rows);
      FlattenAppend(RowsIn(init, rows), rows[order[|order| - 1]]);
    }
  }

  lemma AllInInit(order: seq<int>, rows: map<int, seq<string>>)
    requires AllIn(order, rows) && order != []
    ensures AllIn(order[..|order| - 1], rows)
  {
    var init := order[..|order| - 1];
    forall i | 0 <= i < |init| ensures init[i] in rows {
      assert init[i] == order[i];
    }
  }

  /** One more row adds its text at the end of the flattened clusters. */
  lemma SweepStep(order: seq<int>, rows: map<int, seq<string>>)
    requires AllIn(order, rows) && order != [] && AllIn(order[..|order| - 1], rows)
    ensures Flatten(Sweep(order, rows)) == Flatten(Sweep(order[..|order| - 1], rows)) + rows[order[|order| - 1]]
  {
    var n := |order|;
    var prev := Sweep(order[..n - 1], rows);
    var y := order[n - 1];
    if n > 1 && Abs(y - order[n - 2]) <= ROW_TOLERANCE {
      assert Sweep(order, rows) == prev[..|prev| - 1] + [prev[|prev| - 1] + rows[y]];
      MergeLast(prev, rows[y]);
    } else {
      assert Sweep(order, rows) == prev + [rows[y]];
      FlattenAppend(prev, rows[y]);
    }
  }

  /** Extending the last cluster extends the flattened text. */
  lemma MergeLast(prev: seq<seq<string>>, extra: seq<string>)
    requires prev != []
    ensures Flatten(prev[..|prev| - 1] + [prev[|prev| - 1] + extra]) == Flatten(prev) + extra
  {
    var front := prev[..|prev| - 1];
    var lastGroup := prev[|prev| - 1];
    assert prev == front + [lastGroup];
    FlattenAppend(front, lastGroup);
    FlattenAppend(front, lastGroup + extra);
    AppendAssoc(Flatten(front), lastGroup, extra);
  }

  /** The clustering loop: extends the last cluster in place or starts a new one. */
  method ClusterRows(order: seq<int>, rows: map<int, seq<string>>) returns (clustered: seq<seq<string>>)
    requires AllIn(order, rows)
    ensures clustered == Sweep(order, rows)
  {
    clustered := [];
    var lastY := 0;
    for i := 0 to |order|
      invariant clustered == Sweep(order[..i], rows)
      invariant i > 0 ==> lastY == order[i - 1]
    {
      assert order[..i + 1][..i] == order[..i];
      var y := order[i];
      if i > 0 && Abs(y - lastY) <= ROW_TOLERANCE {
        clustered := clustered[..|clustered| - 1] + [clustered[|clustered| - 1] + rows[y]];
      } else {
        clustered := clustered + [rows[y]];
      }
      lastY := y;
    }
    assert order[..|order|] == order;
  }

  /** A line made only of '-', ':' and spaces. */
  predicate OnlySeparators(s: string) {
    forall i | 0 <= i < |s| :: s[i] == '-' || s[i] == ':' || s[i] == ' '
  }

  /** The title lines the loop over clusters keeps: joined, stripped, non-empty,
      not seen before and not only separators. */
  function TitleLines(groups: seq<seq<string>>): seq<string>
    decreases |groups|
  {
    if groups == [] then []
    else
      var prev := TitleLines(groups[..|groups| - 1]);
      var line := Strip(Join(" ", groups[|groups| - 1]));
      if line != [] && line !in prev && !OnlySeparators(line) then prev + [line] else prev
  }

  /** The kept title lines are pairwise distinct, non-empty and not made of
      separators only. */
  lemma {:induction false} TitleLinesShape(groups: seq<seq<string>>)
    ensures var ls := TitleLines(groups);
      Distinct(ls)
      && (forall i | 0 <= i < |ls| :: ls[i] != [] && !OnlySeparators(ls[i]))
    decreases |groups|
  {
    if groups != [] {
      var prev := TitleLines(groups[..|groups| - 1]);
      TitleLinesShape(groups[..|groups| - 1]);
      var line := Strip(Join(" ", groups[|groups| - 1]));
      if line != [] && line !in prev && !OnlySeparators(line) {
        DistinctAppend(prev, line);
        var ls := prev + [line];
        assert forall i | 0 <= i < |prev| :: ls[i] == prev[i];
      }
    }
  }

  method CollectTitleLines(clustered: seq<seq<string>>) returns (lines: seq<string>)
    ensures lines == TitleLines(clustered)
  {
    lines := [];
    var seen: set<string> := {};
    for i := 0 to |clustered|
      invariant lines == TitleLines(clustered[..i])
      invariant seen == set l | l in lines
    {
      assert clustered[..i + 1][..i] == clustered[..i];
      var line := Strip(Join(" ", clustered[i]));
      if line != [] && line !in seen && !OnlySeparators(line) {
        lines := lines + [line];
        seen := seen + {line};
      }
    }
    assert clustered[..|clustered|] == clustered;
  }

  predicate IsNoiseLine(l: string) { IsFakeHeading(l) || IsAddressOrCity(l) }

  /** [l for l in lines if not is_fake_heading(l) and not is_address_or_city(l)] */
  function DropNoise(lines: seq<string>): seq<string> {
    Filter(lines, l => !IsNoiseLine(l))
  }

  /** The filter keeps every clean line and only clean lines. */
  lemma DropNoiseClean(lines: seq<string>)
    ensures forall i | 0 <= i < |DropNoise(lines)| :: DropNoise(lines)[i] in lines && !IsNoiseLine(DropNoise(lines)[i])
    ensures forall l | l in lines && !IsNoiseLine(l) :: l in DropNoise(lines)
  {
    FilterKeeps(lines, l => !IsNoiseLine(l));
  }

  /** The final rejection of a title that still looks like noise. */
  predicate RejectedTitle(t: string) {
    IsFakeHeading(t) || IsAddressOrCity(t) || StartsWith(Lower(t), "rsvp")
  }

  function Ascending(y: int): Key { (y, 0) }

  lemma SortedRowsAllIn(rs: Rows)
    requires RowsValid(rs)
    ensures AllIn(SortBy(rs.ys, Ascending), rs.rows)
  {
    var order := SortBy(rs.ys, Ascending);
    SortByPermutes(rs.ys, Ascending);
    forall i | 0 <= i < |order| ensures order[i] in rs.rows {
      assert order[i] in multiset(rs.ys);
    }
  }

  /** The title extract_title computes from the first page. */
  ghost function TitleOf(first: Page, levels: seq<int>): string {
    if levels == [] then ""
    else
      var rs := RowsOf(first.lines, levels[0]);
      RowsOfValid(first.lines, levels[0]);
      SortedRowsAllIn(rs);
      var order := SortBy(rs.ys, Ascending);
      var d := DedupeTitle(DropNoise(TitleLines(Sweep(order, rs.rows))));
      if RejectedTitle(d) then "" else d
  }

  /** extract_title: empty without font levels; otherwise the de-duplicated
      title-size text of page 1, or empty when what is left looks like noise. */
  method ExtractTitle(first: Page, levels: seq<int>) returns (title: string)
    ensures title == TitleOf(first, levels)
    ensures levels == [] ==> title == ""
    ensures title == [] || (EndsWith(title, "  ") && !RejectedTitle(title))
  {
    if levels == [] {
      return "";
    }
    var maxSize := levels[0];
    var rs := BuildRows(first, maxSize);
    RowsOfValid(first.lines, maxSize);
    SortedRowsAllIn(rs);
    var order := SortBy(rs.ys, Ascending);
    var clustered := ClusterRows(order, rs.rows);
    var lines := CollectTitleLines(clustered);
    var filtered := DropNoise(lines);
    var result := SmartDedupeTitleLines(filtered);
    DedupeTitleShape(filtered);
    if RejectedTitle(result) {
      result := "";
    }
    title := result;
  }

  /** The title is empty, or ends in two spaces and is not noise. */
  lemma TitleOfShape(first: Page, levels: seq<int>)
    ensures TitleOf(first, levels) == [] ||
      (EndsWith(TitleOf(first, levels), "  ") && !RejectedTitle(TitleOf(first, levels)))
  {
    if levels != [] {
      var rs := RowsOf(first.lines, levels[0]);
      RowsOfValid(first.lines, levels[0]);
      SortedRowsAllIn(rs);
      var order := SortBy(rs.ys, Ascending);
      DedupeTitleShape(DropNoise(TitleLines(Sweep(order, rs.rows))));
    }
  }

  /** The rows are visited in strictly ascending position. */
  lemma AscendingOrder(r: Rows)
    requires RowsValid(r)
    ensures var order := SortBy(r.ys, Ascending);
      forall i, j | 0 <= i < j < |order| :: order[i] < order[j]
  {
    var order := SortBy(r.ys, Ascending);
    SortBySorted(r.ys, Ascending);
    SortByPermutes(r.ys, Ascending);
    assert multiset(order) == multiset(r.ys);
    forall i, j | 0 <= i < j < |order| ensures order[i] < order[j] {
      assert KeyLe(Ascending(order[i]), Ascending(order[j]));
      DistinctCount(r.ys, order[i]);
      TwoOccurrences(order, i, j);
    }
  }
}
