/** ASCII string primitives with the meaning Python's str methods give them on
    ASCII text: whitespace, strip, lower/upper, isupper/islower/isdigit,
    substring search, split into words, and join. */
module Text {

  /** Python's str.isspace() restricted to ASCII: tab, newline, vertical tab,
      form feed, carriage return, the four information separators and space.
      This is also the set that re's \s and str.split()/strip() use. */
  predicate IsSpace(c: char) {
    var n := c as int;
    n == 32 || (9 <= n <= 13) || (28 <= n <= 31)
  }

  predicate IsUpperChar(c: char) { 'A' <= c <= 'Z' }
  predicate IsLowerChar(c: char) { 'a' <= c <= 'z' }
  predicate IsLetter(c: char) { IsUpperChar(c) || IsLowerChar(c) }
  predicate IsDigit(c: char) { '0' <= c <= '9' }

  function LowerChar(c: char): (r: char)
    ensures IsUpperChar(c) ==> IsLowerChar(r)
    ensures !IsUpperChar(c) ==> r == c
  {
    if IsUpperChar(c) then (c as int + 32) as char else c
  }

  function UpperChar(c: char): (r: char)
    ensures IsLowerChar(c) ==> IsUpperChar(r)
    ensures !IsLowerChar(c) ==> r == c
  {
    if IsLowerChar(c) then (c as int - 32) as char else c
  }

  /** str.lower() on ASCII text. */
  function Lower(s: string): (r: string)
    ensures |r| == |s|
    ensures forall i | 0 <= i < |s| :: r[i] == LowerChar(s[i])
  {
    seq(|s|, i requires 0 <= i < |s| => LowerChar(s[i]))
  }

  /** str.upper() on ASCII text. */
  function Upper(s: string): (r: string)
    ensures |r| == |s|
    ensures forall i | 0 <= i < |s| :: r[i] == UpperChar(s[i])
  {
    seq(|s|, i requires 0 <= i < |s| => UpperChar(s[i]))
  }

  predicate AllSpace(s: string) { forall i | 0 <= i < |s| :: IsSpace(s[i]) }
  predicate AllDigits(s: string) { forall i | 0 <= i < |s| :: IsDigit(s[i]) }
  predicate AllLowerChars(s: string) { forall i | 0 <= i < |s| :: IsLowerChar(s[i]) }
  predicate NoSpace(s: string) { forall i | 0 <= i < |s| :: !IsSpace(s[i]) }

  function UpperCount(s: string): nat
    decreases |s|
  {
    if s == [] then 0 else UpperCount(s[..|s| - 1]) + (if IsUpperChar(s[|s| - 1]) then 1 else 0)
  }

  function LowerCount(s: string): nat
    decreases |s|
  {
    if s == [] then 0 else LowerCount(s[..|s| - 1]) + (if IsLowerChar(s[|s| - 1]) then 1 else 0)
  }

  /** str.isupper(): some cased character, and no lower-case one. */
  predicate IsUpperStr(s: string) {
    UpperCount(s) > 0 && LowerCount(s) == 0
  }

  /** str.islower(): some cased character, and no upper-case one. */
  predicate IsLowerStr(s: string) {
    LowerCount(s) > 0 && UpperCount(s) == 0
  }

  /** A text equals its upper-case form exactly when it has no lower-case
      letter. */
  lemma {:induction false} UpperFixed(s: string)
    ensures Upper(s) == s <==> LowerCount(s) == 0
    decreases |s|
  {
    if s != [] {
      var init := s[..|s| - 1];
      UpperFixed(init);
      if LowerCount(s) == 0 {
        assert LowerCount(init) == 0 && !IsLowerChar(s[|s| - 1]);
        assert Upper(init) == init;
        forall i | 0 <= i < |s| ensures Upper(s)[i] == s[i] {
          if i < |s| - 1 {
            assert s[i] == init[i] && Upper(init)[i] == UpperChar(init[i]);
          }
        }
      }
      if Upper(s) == s {
        assert UpperChar(s[|s| - 1]) == s[|s| - 1];
        assert !IsLowerChar(s[|s| - 1]);
        forall i | 0 <= i < |init| ensures Upper(init)[i] == init[i] {
          assert init[i] == s[i];
        }
        assert Upper(init) == init;
      }
    }
  }

  /** str.isdigit(): non-empty and all digits. */
  predicate IsDigitStr(s: string) { |s| > 0 && AllDigits(s) }

  predicate StartsWith(s: string, p: string) { |p| <= |s| && s[..|p|] == p }
  predicate EndsWith(s: string, p: string) { |p| <= |s| && s[|s| - |p|..] == p }

  /** `sub in s` */
  predicate Contains(s: string, sub: string)
    decreases |s|
  {
    StartsWith(s, sub) || (|s| > 0 && Contains(s[1..], sub))
  }

  /** Index of the first non-whitespace character at or after i, or |s|. */
  function SkipSpaces(s: string, i: nat): (k: nat)
    requires i <= |s|
    ensures i <= k <= |s| && (k < |s| ==> !IsSpace(s[k]))
    ensures forall t | i <= t < k :: IsSpace(s[t])
    decreases |s| - i
  {
    if i < |s| && IsSpace(s[i]) then SkipSpaces(s, i + 1) else i
  }

  /** One past the last non-whitespace character of s[lo..hi], or lo. */
  function TrimEnd(s: string, lo: nat, hi: nat): (k: nat)
    requires lo <= hi <= |s|
    ensures lo <= k <= hi && (k > lo ==> !IsSpace(s[k - 1]))
    ensures forall t | k <= t < hi :: IsSpace(s[t])
    decreases hi
  {
    if hi > lo && IsSpace(s[hi - 1]) then TrimEnd(s, lo, hi - 1) else hi
  }

  /** str.lstrip() */
  function LStrip(s: string): (r: string)
    ensures |r| <= |s| && (r == [] || !IsSpace(r[0]))
  {
    s[SkipSpaces(s, 0)..]
  }

  /** str.strip() */
  function Strip(s: string): string {
    var i := SkipSpaces(s, 0);
    s[i..TrimEnd(s, i, |s|)]
  }

  /** A stripped text is a slice of the original, framed by whitespace only,
      and has no whitespace at either end. */
  lemma StripShape(s: string) returns (i: nat, j: nat)
    ensures i <= j <= |s| && Strip(s) == s[i..j]
    ensures AllSpace(s[..i]) && AllSpace(s[j..])
    ensures Strip(s) == [] || (!IsSpace(Strip(s)[0]) && !IsSpace(Strip(s)[|Strip(s)| - 1]))
  {
    i := SkipSpaces(s, 0);
    j := TrimEnd(s, i, |s|);
    assert forall t | 0 <= t < i :: s[..i][t] == s[t];
    assert forall t | 0 <= t < |s| - j :: s[j..][t] == s[j + t];
  }

  /** Stripping is idempotent, and a text with no whitespace at its ends is
      its own strip. */
  lemma StripFixed(s: string)
    requires s == [] || (!IsSpace(s[0]) && !IsSpace(s[|s| - 1]))
    ensures Strip(s) == s
  {
  }

  lemma StripIdempotent(s: string)
    ensures Strip(Strip(s)) == Strip(s)
  {
    var _, _ := StripShape(s);
    StripFixed(Strip(s));
  }

  /** A non-whitespace character lies at or after a whitespace-only prefix. */
  lemma AfterSpacePrefix(x: string, i: nat, k: nat)
    requires i <= |x| && AllSpace(x[..i]) && k < |x| && !IsSpace(x[k])
    ensures i <= k
  {
    assert forall t | 0 <= t < i :: IsSpace(x[t]) by {
      forall t | 0 <= t < i ensures IsSpace(x[t]) {
        assert x[..i][t] == x[t];
      }
    }
  }

  /** A non-whitespace character lies before a whitespace-only suffix. */
  lemma BeforeSpaceSuffix(x: string, j: nat, k: nat)
    requires j <= |x| && AllSpace(x[j..]) && k < |x| && !IsSpace(x[k])
    ensures k < j
  {
    assert forall t | j <= t < |x| :: IsSpace(x[t]) by {
      forall t | j <= t < |x| ensures IsSpace(x[t]) {
        assert x[j..][t - j] == x[t];
      }
    }
  }

  lemma AllSpaceAppend(u: string, v: string)
    requires AllSpace(u) && AllSpace(v)
    ensures AllSpace(u + v)
  {
    forall k | 0 <= k < |u + v| ensures IsSpace((u + v)[k]) {
      if k < |u| {
        assert (u + v)[k] == u[k];
      } else {
        assert (u + v)[k] == v[k - |u|];
      }
    }
  }

  /** Strip is determined by its shape: whatever sits between a whitespace
      prefix and a whitespace suffix, with no whitespace at its own ends. */
  lemma StripUnique(a: string, m: string, b: string)
    requires AllSpace(a) && AllSpace(b)
    requires m == [] || (!IsSpace(m[0]) && !IsSpace(m[|m| - 1]))
    ensures Strip(a + m + b) == m
  {
    var x := a + m + b;
    var i, j := StripShape(x);
    var e := |a| + |m|;
    assert x[..|a|] == a;
    assert x[e..] == b;
    if m != [] {
      assert x[|a|] == m[0] && x[e - 1] == m[|m| - 1];
      AfterSpacePrefix(x, i, |a|);
      BeforeSpaceSuffix(x, j, e - 1);
      assert x[i] == Strip(x)[0] && x[j - 1] == Strip(x)[|Strip(x)| - 1];
      AfterSpacePrefix(x, |a|, i);
      BeforeSpaceSuffix(x, e, j - 1);
      assert x[i..j] == m;
    }
  }

  /** A prefix that starts and ends with non-whitespace survives stripping. */
  lemma StripKeepsPrefix(p: string, rest: string)
    requires |p| > 0 && !IsSpace(p[0]) && !IsSpace(p[|p| - 1])
    ensures StartsWith(Strip(p + rest), p)
  {
    var s := p + rest;
    var i, j := StripShape(s);
    assert s[0] == p[0] && s[|p| - 1] == p[|p| - 1];
    AfterSpacePrefix(s, i, 0);
    BeforeSpaceSuffix(s, j, |p| - 1);
    assert Strip(s)[..|p|] == s[..|p|] == p;
  }

  /** An occurrence at any position makes `sub in s` true. */
  lemma {:induction false} ContainsAt(s: string, sub: string, k: nat)
    requires k <= |s| && StartsWith(s[k..], sub)
    ensures Contains(s, sub)
    decreases k
  {
    if k == 0 {
      assert s[0..] == s;
    } else {
      assert s[1..][k - 1..] == s[k..];
      ContainsAt(s[1..], sub, k - 1);
    }
  }

  /** Lower-casing neither makes nor removes whitespace. */
  lemma LowerKeepsSpace(c: char)
    ensures IsSpace(LowerChar(c)) <==> IsSpace(c)
  {
  }

  /** Lower-casing commutes with slicing. */
  lemma LowerSlice(s: string, i: nat, j: nat)
    requires i <= j <= |s|
    ensures Lower(s[i..j]) == Lower(s)[i..j]
  {
    assert forall t | 0 <= t < j - i :: Lower(s[i..j])[t] == LowerChar(s[i + t]) == Lower(s)[i..j][t];
  }

  /** An occurrence lying inside s[i..j] is an occurrence in that slice. */
  lemma ContainsInSlice(s: string, sub: string, i: nat, j: nat, r: nat)
    requires i <= r && r + |sub| <= j <= |s| && s[r..r + |sub|] == sub
    ensures Contains(s[i..j], sub)
  {
    var m := s[i..j];
    assert m[r - i..][..|sub|] == sub by {
      forall t | 0 <= t < |sub| ensures m[r - i..][..|sub|][t] == sub[t] {
        assert m[r - i..][..|sub|][t] == s[r + t] == s[r..r + |sub|][t];
      }
    }
    ContainsAt(m, sub, r - i);
  }

  /** A pattern with no whitespace at its ends that occurs in the lower-cased
      text also occurs in the lower-cased stripped text. */
  lemma ContainsInStrip(s: string, sub: string)
    requires |sub| > 0 && !IsSpace(sub[0]) && !IsSpace(sub[|sub| - 1])
    ensures Contains(Lower(s), sub) ==> Contains(Lower(Strip(s)), sub)
  {
    if Contains(Lower(s), sub) {
      var ls := Lower(s);
      var r := Find(ls, sub);
      var e := r + |sub| - 1;
      assert ls[r..r + |sub|] == sub by {
        assert ls[r..][..|sub|] == ls[r..r + |sub|];
      }
      assert ls[r] == sub[0] && ls[e] == sub[|sub| - 1] by {
        assert ls[r..r + |sub|][0] == ls[r] && ls[r..r + |sub|][|sub| - 1] == ls[e];
      }
      LowerKeepsSpace(s[r]);
      LowerKeepsSpace(s[e]);
      var i, j := StripShape(s);
      AfterSpacePrefix(s, i, r);
      BeforeSpaceSuffix(s, j, e);
      LowerSlice(s, i, j);
      ContainsInSlice(ls, sub, i, j, r);
    }
  }

  /** A suffix with no whitespace at its ends survives stripping. */
  lemma EndsWithStrip(s: string, suf: string)
    requires |suf| > 0 && !IsSpace(suf[0]) && !IsSpace(suf[|suf| - 1])
    ensures EndsWith(s, suf) ==> EndsWith(Strip(s), suf)
  {
    if EndsWith(s, suf) {
      var b := |s| - |suf|;
      assert s[b] == suf[0] && s[|s| - 1] == suf[|suf| - 1] by {
        assert s[b..][0] == s[b] && s[b..][|suf| - 1] == s[|s| - 1];
      }
      var i, j := StripShape(s);
      AfterSpacePrefix(s, i, b);
      BeforeSpaceSuffix(s, j, |s| - 1);
      assert Strip(s)[|Strip(s)| - |suf|..] == s[b..];
    }
  }

  lemma Split3(s: string, i: nat, j: nat)
    requires i <= j <= |s|
    ensures s == s[..i] + s[i..j] + s[j..]
  {
  }

  lemma SplitAround(s: string, i: nat, j: nat, w: string)
    requires i <= j <= |s|
    ensures s + w == s[..i] + s[i..j] + (s[j..] + w)
  {
    assert s == s[..i] + s[i..j] + s[j..];
  }

  /** Appending whitespace does not change the strip. */
  lemma StripTrailingSpace(s: string, w: string)
    requires AllSpace(w)
    ensures Strip(s + w) == Strip(s)
  {
    var i, j := StripShape(s);
    SplitAround(s, i, j, w);
    AllSpaceAppend(s[j..], w);
    StripUnique(s[..i], s[i..j], s[j..] + w);
  }

  /** Number of words in the sense of str.split(): maximal runs of
      non-whitespace, counted by their first characters. */
  function WordCount(s: string): nat
    decreases |s|
  {
    if |s| == 0 then 0
    else WordCount(s[..|s| - 1]) +
         (if !IsSpace(s[|s| - 1]) && (|s| == 1 || IsSpace(s[|s| - 2])) then 1 else 0)
  }

  /** sep.join(parts) */
  function Join(sep: string, parts: seq<string>): (r: string)
    decreases |parts|
  {
    if |parts| == 0 then []
    else if |parts| == 1 then parts[0]
    else Join(sep, parts[..|parts| - 1]) + sep + parts[|parts| - 1]
  }

  /** Joining a prefix of the parts gives a text no longer than joining
      them all. */
  lemma {:induction false} JoinPrefixShorter(sep: string, parts: seq<string>, k: nat)
    requires k <= |parts|
    ensures |Join(sep, parts[..k])| <= |Join(sep, parts)|
    decreases |parts|
  {
    if k < |parts| {
      var init := parts[..|parts| - 1];
      JoinPrefixShorter(sep, init, k);
      assert init[..k] == parts[..k];
    } else {
      assert parts[..k] == parts;
    }
  }

  /** Number of ASCII letters, the length of re.sub(r"[^A-Za-z]", "", s). */
  function LetterCount(s: string): nat
    decreases |s|
  {
    if |s| == 0 then 0 else LetterCount(s[..|s| - 1]) + (if IsLetter(s[|s| - 1]) then 1 else 0)
  }

  lemma LetterCountAppend(a: string, b: string)
    ensures LetterCount(a + b) == LetterCount(a) + LetterCount(b)
    decreases |b|
  {
    if |b| > 0 {
      assert (a + b)[..|a + b| - 1] == a + b[..|b| - 1];
      LetterCountAppend(a, b[..|b| - 1]);
    } else {
      assert a + b == a;
    }
  }

  lemma LetterCountSpaces(w: string)
    requires AllSpace(w)
    ensures LetterCount(w) == 0
    decreases |w|
  {
    if |w| > 0 { LetterCountSpaces(w[..|w| - 1]); }
  }

  /** Stripping removes no letters. */
  lemma LetterCountStrip(s: string)
    ensures LetterCount(Strip(s)) == LetterCount(s)
  {
    var i, j := StripShape(s);
    Split3(s, i, j);
    LetterCountAppend(s[..i] + s[i..j], s[j..]);
    LetterCountAppend(s[..i], s[i..j]);
    LetterCountSpaces(s[..i]);
    LetterCountSpaces(s[j..]);
  }

  /** Index of the first occurrence of `sub` in `s`, or -1 (str.find). */
  function Find(s: string, sub: string): (r: int)
    ensures -1 <= r && (r >= 0 ==> r <= |s| - |sub|)
    ensures r == -1 <==> !Contains(s, sub)
    ensures r >= 0 ==> StartsWith(s[r..], sub)
    ensures r >= 0 ==> forall k | 0 <= k < r :: !StartsWith(s[k..], sub)
    decreases |s|
  {
    if StartsWith(s, sub) then 0
    else if |s| == 0 then -1
    else
      var k := Find(s[1..], sub);
      if k == -1 then -1
      else
        assert forall m | 1 <= m <= k :: s[m..] == s[1..][m - 1..];
        k + 1
  }
}
