/** The text classifiers of the outline builder: address/location lines,
    noise ("fake heading") lines, heading-shaped lines, the level implied by a
    section number, and whitespace normalisation. Every regular expression of
    the original is written out as a predicate over the characters. */
module Classify {
  import opened Text

  // Corpus-specific literals, kept as they are.
  const PLACE_NAMES: seq<string> := ["pigeon forge", "tennessee", "parsippany"]
  const STATE_ZIP_SUFFIXES: seq<string> := ["TN 37863", "NJ 07054"]
  const BOILERPLATE_PREFIX: string := "pay + si + npa"
  const NON_HEADING_LABELS: seq<string> := ["distinction pathway", "regular pathway"]
  const SPECIAL_SECTIONS: seq<string> := ["revision history", "table of contents", "acknowledgements"]

  /** any(sub in s for sub in subs) */
  predicate ContainsAny(s: string, subs: seq<string>)
    decreases |subs|
  {
    subs != [] && (Contains(s, subs[0]) || ContainsAny(s, subs[1..]))
  }

  /** s.endswith(tuple(suffixes)) */
  predicate EndsWithAny(s: string, suffixes: seq<string>)
    decreases |suffixes|
  {
    suffixes != [] && (EndsWith(s, suffixes[0]) || EndsWithAny(s, suffixes[1..]))
  }

  predicate IsUpperOrSpace(c: char) { IsUpperChar(c) || c == ' ' }

  /** End of the run of [A-Z ] characters starting at i. */
  function UpperSpaceRun(t: string, i: nat): (j: nat)
    requires i <= |t|
    ensures i <= j <= |t| && (j == |t| || !IsUpperOrSpace(t[j]))
    ensures forall k | i <= k < j :: IsUpperOrSpace(t[k])
    decreases |t| - i
  {
    if i < |t| && IsUpperOrSpace(t[i]) then UpperSpaceRun(t, i + 1) else i
  }

  /** End of the run of [a-z] characters starting at i. */
  function LowerRun(t: string, i: nat): (j: nat)
    requires i <= |t|
    ensures i <= j <= |t| && (j == |t| || !IsLowerChar(t[j]))
    ensures forall k | i <= k < j :: IsLowerChar(t[k])
    decreases |t| - i
  {
    if i < |t| && IsLowerChar(t[i]) then LowerRun(t, i + 1) else i
  }

  /** End of the run of whitespace starting at i. */
  function SpaceRun(t: string, i: nat): (j: nat)
    requires i <= |t|
    ensures i <= j <= |t| && (j == |t| || !IsSpace(t[j]))
    ensures forall k | i <= k < j :: IsSpace(t[k])
    decreases |t| - i
  {
    if i < |t| && IsSpace(t[i]) then SpaceRun(t, i + 1) else i
  }

  /** re.match(r'^[A-Z ]+\,?\s*\d{5,6}$', t): upper-case words and a postal
      code. Matching the run of [A-Z ] greedily is exact: giving back a
      character can only give back spaces, which the optional comma cannot
      then follow and which \s* takes anyway. */
  predicate UpperWordsPostcode(t: string) {
    var a := UpperSpaceRun(t, 0);
    var b := SpaceRun(t, if a < |t| && t[a] == ',' then a + 1 else a);
    a > 0 && AllDigits(t[b..]) && 5 <= |t| - b <= 6
  }

  /** re.match(r'^[A-Z][a-z]+, [A-Z]{2,}', t): "City, STATE". The run of
      [a-z] must end at the comma, so it is matched greedily. */
  predicate CityState(t: string) {
    |t| > 0 && IsUpperChar(t[0]) &&
    var k := LowerRun(t, 1);
    k >= 2 && k + 3 < |t| && t[k] == ',' && t[k + 1] == ' '
    && IsUpperChar(t[k + 2]) && IsUpperChar(t[k + 3])
  }

  /** is_address_or_city (heading_extractor.py:23-30). */
  predicate IsAddressOrCity(text: string) {
    AddressStripped(Strip(text))
  }

  predicate AddressStripped(t: string) {
    var lt := Lower(t);
    UpperWordsPostcode(t) || CityState(t) || ContainsAny(lt, PLACE_NAMES)
    || EndsWithAny(t, STATE_ZIP_SUFFIXES) || Contains(lt, "rsvp")
  }

  /** A text with no whitespace at either end, such as every keyword here. */
  predicate Framed(p: string) {
    |p| > 0 && !IsSpace(p[0]) && !IsSpace(p[|p| - 1])
  }

  lemma {:induction false} ContainsAnyStrip(text: string, subs: seq<string>)
    requires forall k | 0 <= k < |subs| :: Framed(subs[k])
    ensures ContainsAny(Lower(text), subs) ==> ContainsAny(Lower(Strip(text)), subs)
    decreases |subs|
  {
    if subs != [] {
      ContainsInStrip(text, subs[0]);
      ContainsAnyStrip(text, subs[1..]);
    }
  }

  lemma {:induction false} EndsWithAnyStrip(text: string, suffixes: seq<string>)
    requires forall k | 0 <= k < |suffixes| :: Framed(suffixes[k])
    ensures EndsWithAny(text, suffixes) ==> EndsWithAny(Strip(text), suffixes)
    decreases |suffixes|
  {
    if suffixes != [] {
      EndsWithStrip(text, suffixes[0]);
      EndsWithAnyStrip(text, suffixes[1..]);
    }
  }

  /** The keyword tests of is_address_or_city decide on the whole text: an
      "rsvp" or a place name anywhere, in any letter case, or one of the two
      ZIP-code endings makes a line an address, whatever whitespace
      surrounds it. */
  lemma AddressKeywords(text: string)
    ensures Contains(Lower(text), "rsvp") ==> IsAddressOrCity(text)
    ensures ContainsAny(Lower(text), PLACE_NAMES) ==> IsAddressOrCity(text)
    ensures EndsWithAny(text, STATE_ZIP_SUFFIXES) ==> IsAddressOrCity(text)
  {
    ContainsInStrip(text, "rsvp");
    ContainsAnyStrip(text, PLACE_NAMES);
    EndsWithAnyStrip(text, STATE_ZIP_SUFFIXES);
  }

  /** re.match(r"^relationship\s*\d", lt) */
  predicate RelationshipNumber(lt: string) {
    StartsWith(lt, "relationship") &&
    var k := SpaceRun(lt, 12);
    k < |lt| && IsDigit(lt[k])
  }

  /** is_fake_heading (heading_extractor.py:32-42): boilerplate, page labels,
      URLs, addresses and text with fewer than three letters. */
  function IsFakeHeading(text: string): (r: bool)
    ensures LetterCount(text) < 3 ==> r
    ensures IsAddressOrCity(text) ==> r
  {
    LetterCountStrip(text);
    StripIdempotent(text);
    FakeStripped(Strip(text))
  }

  predicate FakeStripped(t: string) {
    var lt := Lower(t);
    RelationshipNumber(lt) || StartsWith(lt, BOILERPLATE_PREFIX) || StartsWith(lt, "page ")
    || Contains(lt, "address:") || lt in NON_HEADING_LABELS || LetterCount(t) < 3
    || Contains(lt, "www.") || Contains(lt, "http") || IsAddressOrCity(t)
  }

  /** Trailing whitespace changes none of the noise classifications: the
      second noise check in the outline builder, made after a space has been
      appended, rejects nothing the first one let through. */
  lemma NoiseIgnoresTrailingSpace(t: string, w: string)
    requires AllSpace(w)
    ensures IsFakeHeading(t + w) == IsFakeHeading(t)
    ensures IsAddressOrCity(t + w) == IsAddressOrCity(t)
    ensures IsHeadingLike(t + w) == IsHeadingLike(t)
  {
    StripTrailingSpace(t, w);
    LetterCountStrip(t);
    LetterCountStrip(t + w);
  }

  predicate StartsWithBullet(t: string) {
    |t| > 0 && (t[0] as int == 0x25CF || t[0] == '-' || t[0] as int == 0x2022 || t[0] == '*' || t[0] == 'o')
  }

  /** End of the maximal run of digits starting at i. */
  function DigitRun(s: string, i: nat): (j: nat)
    requires i <= |s|
    ensures i <= j <= |s| && AllDigits(s[i..j])
    ensures j == |s| || !IsDigit(s[j])
    decreases |s| - i
  {
    if i < |s| && IsDigit(s[i]) then
      var j := DigitRun(s, i + 1);
      assert s[i..j] == [s[i]] + s[i + 1..j];
      j
    else i
  }

  /** A digit run of known length ends where the run ends. */
  lemma DigitRunAt(s: string, i: nat, n: nat)
    requires i + n <= |s| && AllDigits(s[i..i + n])
    requires i + n == |s| || !IsDigit(s[i + n])
    ensures DigitRun(s, i) == i + n
    decreases n
  {
    if n > 0 {
      assert IsDigit(s[i..i + n][0]);
      assert s[i + 1..i + n] == s[i..i + n][1..];
      DigitRunAt(s, i + 1, n - 1);
    }
  }

  /** End of `\d+(\.\d+)*` matched greedily at i. */
  function DottedEnd(s: string, i: nat): (j: nat)
    requires i < |s| && IsDigit(s[i])
    ensures i < j <= |s|
    decreases |s| - i
  {
    var j := DigitRun(s, i);
    if j + 1 < |s| && s[j] == '.' && IsDigit(s[j + 1]) then DottedEnd(s, j + 1) else j
  }

  /** re.match(r"^[A-Za-z]?\d+(\.\d+)*[.:]?\s", t). Greedy matching is exact
      here: giving back a digit, a dotted group or the final [.:] would leave a
      digit, a dot or a colon where the pattern then needs whitespace. */
  predicate NumberedPrefix(t: string) {
    var i := if |t| > 0 && IsLetter(t[0]) then 1 else 0;
    i < |t| && IsDigit(t[i]) &&
    var j := DottedEnd(t, i);
    var k := if j < |t| && (t[j] == '.' || t[j] == ':') then j + 1 else j;
    k < |t| && IsSpace(t[k])
  }

  predicate EndsWithStop(t: string) { EndsWith(t, ".") || EndsWith(t, ";") }

  /** is_heading_like (heading_extractor.py:58-67). */
  function IsHeadingLike(text: string): (r: bool)
    ensures |Strip(text)| < 3 ==> !r
    ensures StartsWithBullet(Strip(text)) ==> !r
    ensures (|Strip(text)| >= 3 && !StartsWithBullet(Strip(text))
             && WordCount(Strip(text)) <= 15 && !EndsWithStop(Strip(text))) ==> r
  {
    HeadingLikeStripped(Strip(text))
  }

  predicate HeadingLikeStripped(t: string) {
    if |t| < 3 then false
    else if StartsWithBullet(t) then false
    else
      NumberedPrefix(t)
      || (EndsWith(t, ":") && |t| <= 60)
      || (|t| > 5 && IsUpperStr(t))
      || (IsUpperChar(t[0]) && !EndsWithStop(t))
      || (WordCount(t) <= 15 && !EndsWithStop(t))
  }

  /** re.match(r"^(\d+)\.", t); the result is the end of the first number. */
  predicate Dotted1(t: string) {
    var j := DigitRun(t, 0);
    0 < j < |t| && t[j] == '.'
  }

  /** re.match(r"^(\d+)\.(\d+)", t) */
  predicate Dotted2(t: string) {
    var j := DigitRun(t, 0);
    0 < j && j + 1 < |t| && t[j] == '.' && IsDigit(t[j + 1])
  }

  /** re.match(r"^(\d+)\.(\d+)\.(\d+)", t) */
  predicate Dotted3(t: string) {
    var j := DigitRun(t, 0);
    0 < j && j + 1 < |t| && t[j] == '.' && IsDigit(t[j + 1]) &&
    var k := DigitRun(t, j + 1);
    k + 1 < |t| && t[k] == '.' && IsDigit(t[k + 1])
  }

  /** heading_level_by_numbering (heading_extractor.py:69-80): 1, 2 or 3 from
      the section number, 1 for the special section names, 0 otherwise. */
  function HeadingLevelByNumbering(text: string): (r: int)
    ensures 0 <= r <= 3
    ensures Lower(Strip(text)) in SPECIAL_SECTIONS ==> r == 1
  {
    LevelOfStripped(Strip(text))
  }

  function LevelOfStripped(t: string): (r: int) {
    if Lower(t) in SPECIAL_SECTIONS then 1
    else if Dotted3(t) then 3
    else if Dotted2(t) then 2
    else if Dotted1(t) then 1
    else 0
  }

  predicate IsNumber(a: string) { |a| > 0 && AllDigits(a) }

  /** A text that starts with a digit is never one of the special names. */
  lemma NotSpecial(t: string)
    requires |t| > 0 && IsDigit(t[0])
    ensures Lower(t) !in SPECIAL_SECTIONS
  {
    assert Lower(t)[0] == t[0];
  }

  /** The stripped text keeps a prefix `p` that starts and ends with
      non-whitespace, and whatever follows `p` in it is what followed `p`
      before. */
  lemma StrippedAfterPrefix(p: string, rest: string) returns (t: string)
    requires |p| > 0 && !IsSpace(p[0]) && !IsSpace(p[|p| - 1])
    ensures t == Strip(p + rest) && |p| <= |t| && t[..|p|] == p
    ensures forall k | |p| <= k < |t| :: t[k] == rest[k - |p|]
  {
    t := Strip(p + rest);
    StripKeepsPrefix(p, rest);
    var s, e := StripShape(p + rest);
    assert s == 0;
  }

  /** A run of exactly |a| digits opens t. */
  lemma NumberOpens(t: string, a: string, p: string)
    requires IsNumber(a) && |a| < |p| <= |t| && t[..|p|] == p && p[..|a|] == a && p[|a|] == '.'
    ensures DigitRun(t, 0) == |a| && t[|a|] == '.'
    ensures Lower(t) !in SPECIAL_SECTIONS
  {
    assert t[..|a|] == a;
    assert t[|a|] == p[|a|];
    DigitRunAt(t, 0, |a|);
    NotSpecial(t);
  }

  lemma Level3At(t: string, i: nat, j: nat)
    requires 0 < i && i + 1 < j && j + 1 < |t|
    requires AllDigits(t[..i]) && t[i] == '.' && AllDigits(t[i + 1..j]) && t[j] == '.' && IsDigit(t[j + 1])
    ensures LevelOfStripped(t) == 3
  {
    DigitRunAt(t, 0, i);
    DigitRunAt(t, i + 1, j - i - 1);
    assert IsDigit(t[0]) by { assert t[..i][0] == t[0]; }
    NotSpecial(t);
  }

  lemma Level2At(t: string, i: nat, j: nat)
    requires 0 < i && i + 1 < j <= |t|
    requires AllDigits(t[..i]) && t[i] == '.' && AllDigits(t[i + 1..j])
    requires j == |t| || !IsDigit(t[j])
    requires !(j + 1 < |t| && t[j] == '.' && IsDigit(t[j + 1]))
    ensures LevelOfStripped(t) == 2
  {
    DigitRunAt(t, 0, i);
    DigitRunAt(t, i + 1, j - i - 1);
    assert IsDigit(t[0]) by { assert t[..i][0] == t[0]; }
    assert IsDigit(t[i + 1]) by { assert t[i + 1..j][0] == t[i + 1]; }
    NotSpecial(t);
  }

  /** "2.3.1 Something" is level 3, whatever follows the third number. */
  lemma NumberedLevel3(a: string, b: string, c: string, rest: string)
    requires IsNumber(a) && IsNumber(b) && IsNumber(c)
    ensures HeadingLevelByNumbering(a + "." + b + "." + c + rest) == 3
  {
    var p := a + "." + b + "." + c;
    assert p + rest == a + "." + b + "." + c + rest;
    var t := StrippedAfterPrefix(p, rest);
    var i, j := |a|, |a| + 1 + |b|;
    assert forall k | 0 <= k < |p| :: t[k] == p[k] by {
      forall k | 0 <= k < |p| ensures t[k] == p[k] {
        assert t[..|p|][k] == t[k];
      }
    }
    assert t[..i] == a by { assert t[..i] == p[..i]; }
    assert t[i + 1..j] == b by { assert t[i + 1..j] == p[i + 1..j]; }
    assert p[i] == '.' && p[j] == '.' && p[j + 1] == c[0];
    Level3At(t, i, j);
  }

  /** "2.3 Something" is level 2 when no third number follows. */
  lemma NumberedLevel2(a: string, b: string, rest: string)
    requires IsNumber(a) && IsNumber(b)
    requires rest == [] || !IsDigit(rest[0])
    requires !(|rest| >= 2 && rest[0] == '.' && IsDigit(rest[1]))
    ensures HeadingLevelByNumbering(a + "." + b + rest) == 2
  {
    var p := a + "." + b;
    assert p + rest == a + "." + b + rest;
    var t := StrippedAfterPrefix(p, rest);
    var i, j := |a|, |p|;
    assert t[..i] == a by { assert t[..i] == p[..i]; }
    assert t[i + 1..j] == b by { assert t[i + 1..j] == p[i + 1..j]; }
    assert t[i] == '.' by { assert t[i] == p[i]; }
    assert j < |t| ==> t[j] == rest[0];
    assert j + 1 < |t| ==> t[j + 1] == rest[1];
    Level2At(t, i, j);
  }

  /** "3. Something" is level 1 when no digit follows the dot. */
  lemma NumberedLevel1(a: string, rest: string)
    requires IsNumber(a)
    requires rest == [] || !IsDigit(rest[0])
    ensures HeadingLevelByNumbering(a + "." + rest) == 1
  {
    var p := a + ".";
    assert p + rest == a + "." + rest;
    var t := StrippedAfterPrefix(p, rest);
    NumberOpens(t, a, p);
    assert |p| == |t| || !IsDigit(t[|p|]);
    assert !Dotted2(t);
    assert Dotted1(t);
  }

  // ---- normalize_spaces (heading_extractor.py:82-83) ----

  /** re.sub(r'\s+', ' ', s) */
  function Collapse(s: string): (r: string)
    ensures |s| > 0 && !IsSpace(s[0]) ==> |r| > 0 && r[0] == s[0]
    ensures SingleSpaced(r)
    decreases |s|
  {
    if s == [] then []
    else if IsSpace(s[0]) then
      var rest := Collapse(LStrip(s[1..]));
      assert rest == [] || rest[0] != ' ';
      [' '] + rest
    else [s[0]] + Collapse(s[1..])
  }

  /** s.replace(' !', '!') */
  function ReplaceSpaceBang(s: string): (r: string)
    decreases |s|
  {
    if |s| >= 2 && s[0] == ' ' && s[1] == '!' then ['!'] + ReplaceSpaceBang(s[2..])
    else if s == [] then []
    else [s[0]] + ReplaceSpaceBang(s[1..])
  }

  /** normalize_spaces */
  function NormalizeSpaces(text: string): string {
    Strip(ReplaceSpaceBang(Collapse(text)))
  }

  /** Every whitespace character is a plain space and no two spaces touch. */
  predicate SingleSpaced(s: string) {
    (forall i | 0 <= i < |s| :: IsSpace(s[i]) ==> s[i] == ' ') &&
    (forall i | 0 <= i < |s| - 1 :: s[i] == ' ' ==> s[i + 1] != ' ')
  }

  predicate NoSpaceBang(s: string) {
    forall i | 0 <= i < |s| - 1 :: s[i] == ' ' ==> s[i + 1] != '!'
  }

  /** The shape normalize_spaces gives a text. */
  predicate Normalized(s: string) {
    SingleSpaced(s) && NoSpaceBang(s) && (s == [] || (s[0] != ' ' && s[|s| - 1] != ' '))
  }

  lemma ReplaceSpaceBangShape(s: string)
    requires SingleSpaced(s)
    ensures SingleSpaced(ReplaceSpaceBang(s)) && NoSpaceBang(ReplaceSpaceBang(s))
    ensures |s| > 0 && s[0] != ' ' ==> |ReplaceSpaceBang(s)| > 0 && ReplaceSpaceBang(s)[0] == s[0]
    ensures |s| > 0 && s[0] == ' ' ==> ReplaceSpaceBang(s) != [] && (ReplaceSpaceBang(s)[0] == ' ' || ReplaceSpaceBang(s)[0] == '!')
    decreases |s|
  {
    if |s| >= 2 && s[0] == ' ' && s[1] == '!' {
      ReplaceSpaceBangShape(s[2..]);
    } else if s != [] {
      ReplaceSpaceBangShape(s[1..]);
    }
  }

  lemma SliceKeepsShape(s: string, i: nat, j: nat)
    requires i <= j <= |s| && SingleSpaced(s) && NoSpaceBang(s)
    ensures SingleSpaced(s[i..j]) && NoSpaceBang(s[i..j])
  {
    var m := s[i..j];
    forall k | 0 <= k < |m| - 1 ensures m[k] == ' ' ==> m[k + 1] != ' ' && m[k + 1] != '!' {
      assert m[k] == s[i + k] && m[k + 1] == s[i + k + 1];
    }
  }

  /** normalize_spaces yields a normalised text. */
  lemma NormalizeSpacesShape(text: string)
    ensures Normalized(NormalizeSpaces(text))
  {
    var c := ReplaceSpaceBang(Collapse(text));
    ReplaceSpaceBangShape(Collapse(text));
    var i, j := StripShape(c);
    SliceKeepsShape(c, i, j);
  }

  lemma CollapseFixed(s: string)
    requires SingleSpaced(s) && (s == [] || s[0] != ' ')
    ensures Collapse(s) == s
    decreases |s|
  {
    if s != [] {
      if |s| > 1 {
        SliceKeepsSingle(s);
        if s[1] == ' ' {
          assert s[2..] == [] || s[2] != ' ';
          assert LStrip(s[2..]) == s[2..];
          SliceKeepsSingle(s[1..]);
          CollapseFixed(s[2..]);
          assert s[1..] == [' '] + s[2..];
        } else {
          CollapseFixed(s[1..]);
        }
      }
    }
  }

  lemma SliceKeepsSingle(s: string)
    requires |s| > 0 && SingleSpaced(s)
    ensures SingleSpaced(s[1..])
  {
    forall k | 0 <= k < |s[1..]| - 1 ensures s[1..][k] == ' ' ==> s[1..][k + 1] != ' ' {
      assert s[1..][k] == s[k + 1] && s[1..][k + 1] == s[k + 2];
    }
  }

  lemma ReplaceSpaceBangFixed(s: string)
    requires NoSpaceBang(s)
    ensures ReplaceSpaceBang(s) == s
    decreases |s|
  {
    if s != [] {
      assert NoSpaceBang(s[1..]) by {
        forall k | 0 <= k < |s[1..]| - 1 ensures s[1..][k] == ' ' ==> s[1..][k + 1] != '!' {
          assert s[1..][k] == s[k + 1] && s[1..][k + 1] == s[k + 2];
        }
      }
      ReplaceSpaceBangFixed(s[1..]);
    }
  }

  /** normalize_spaces leaves a normalised text alone; in particular it is
      idempotent. */
  lemma NormalizeSpacesFixed(s: string)
    requires Normalized(s)
    ensures NormalizeSpaces(s) == s
  {
    CollapseFixed(s);
    ReplaceSpaceBangFixed(s);
    StripFixed(s);
  }

  lemma NormalizeSpacesIdempotent(text: string)
    ensures NormalizeSpaces(NormalizeSpaces(text)) == NormalizeSpaces(text)
  {
    NormalizeSpacesShape(text);
    NormalizeSpacesFixed(NormalizeSpaces(text));
  }
}
