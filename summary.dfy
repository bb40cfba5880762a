/** The results-summary extractor of the report reader (analyze.py
    `_extract_b_after_label`, `_extract_count_pct_after_label`,
    `_parse_results_summary`): the bold value printed after a caption cell of
    the report, the count and percentage such a value carries, and the
    summary figures derived from them.

    The regular expressions of the original are written out as scanners
    over the text. Each scanner is proved to find exactly the match Python's
    leftmost search finds: the first position where the pattern can match
    and, at that position, the shortest lazy stretch. */
module Summary {
  import opened Basics
  import opened Text
  import opened Scalars

  /** Case folding of `re.IGNORECASE` towards an ASCII pattern: ASCII capitals
      fold to small letters, and so do the four non-ASCII characters that
      Python's matcher treats as equal to an ASCII letter (dotted capital I,
      dotless small i, long s and the Kelvin sign). */
  function Fold(c: char): char
  {
    if 'A' <= c <= 'Z' then (c as int + 32) as char
    else if c == '\U{130}' || c == '\U{131}' then 'i'
    else if c == '\U{17F}' then 's'
    else if c == '\U{212A}' then 'k'
    else c
  }

  /** The pattern `p` matches `s` at `i`, ignoring case. */
  predicate MatchAt(s: string, i: nat, p: string)
  {
    i + |p| <= |s| && forall k :: 0 <= k < |p| ==> Fold(s[i + k]) == Fold(p[k])
  }

  /** Text equal to the pattern matches it. */
  lemma MatchExact(s: string, i: nat, p: string)
    requires i + |p| <= |s| && s[i..i + |p|] == p
    ensures MatchAt(s, i, p)
  {
    forall k | 0 <= k < |p| ensures Fold(s[i + k]) == Fold(p[k]) {
      assert s[i + k] == s[i..i + |p|][k];
    }
  }

  /** The first index `>= from` where `p` matches, ignoring case. */
  function FindCI(s: string, p: string, from: nat): (r: Option<nat>)
    ensures r.Some? ==> from <= r.value && MatchAt(s, r.value, p)
    ensures r.Some? ==> forall k: nat :: from <= k < r.value ==> !MatchAt(s, k, p)
    ensures r.None? ==> forall k: nat :: from <= k ==> !MatchAt(s, k, p)
    decreases |s| - from
  {
    if from + |p| > |s| then None
    else if MatchAt(s, from, p) then Some(from)
    else FindCI(s, p, from + 1)
  }

  /** The end of the whitespace run starting at `i`: what a greedy `\s*`
      consumes when the next element of the pattern cannot begin with
      whitespace. */
  function SkipSpace(s: string, i: nat): (e: nat)
    requires i <= |s|
    ensures i <= e <= |s|
    decreases |s| - i
  {
    if i < |s| && IsSpace(s[i]) then SkipSpace(s, i + 1) else i
  }

  /** The index of the first `<` at or after `k`, or `|s|` when there is
      none. */
  function NextLt(s: string, k: nat): (q: nat)
    requires k <= |s|
    ensures k <= q <= |s|
    decreases |s| - k
  {
    if k == |s| || s[k] == '<' then k else NextLt(s, k + 1)
  }

  lemma {:induction false} NextLtIsFirst(s: string, k: nat)
    requires k <= |s|
    ensures '<' !in s[k..NextLt(s, k)]
    ensures NextLt(s, k) < |s| ==> s[NextLt(s, k)] == '<'
    decreases |s| - k
  {
    if k < |s| && s[k] != '<' {
      NextLtIsFirst(s, k + 1);
      assert s[k..NextLt(s, k)] == [s[k]] + s[k + 1..NextLt(s, k)];
    }
  }

  /** `\s*([^<]+?)\s*</b>` matches right after a `<b>` ending at `k`: the
      first `<` from `k` on comes after at least one character and opens
      `</b>`. */
  predicate Closes(s: string, k: nat)
  {
    k <= |s| && NextLt(s, k) > k && MatchAt(s, NextLt(s, k), "</b>")
  }

  /** The stretch the bold pattern covers after `k`: the text up to the
      first `<`. */
  function BoldText(s: string, k: nat): (r: string)
    requires Closes(s, k)
    ensures r != [] && '<' !in r
  {
    NextLtIsFirst(s, k);
    s[k..NextLt(s, k)]
  }

  /** A `<b>` at index `b` that is followed by a bold value. */
  predicate BoldAt(s: string, b: nat)
  {
    MatchAt(s, b, "<b>") && Closes(s, b + 3)
  }

  /** `caption\s*</td>.*?<b>\s*([^<]+?)\s*</b>` can match with the caption at `i`
      and the `<b>` at `b`. */
  predicate LabelMatch(s: string, caption: string, i: nat, b: nat)
  {
    && MatchAt(s, i, caption)
    && var j := SkipSpace(s, i + |caption|);
    && MatchAt(s, j, "</td>")
    && j + 5 <= b
    && BoldAt(s, b)
  }

  /** The first `<b>` at or after `from` that is followed by a bold value:
      the lazy `.*?` tries each `<b>` in turn. */
  function FirstBold(s: string, from: nat): (r: Option<nat>)
    ensures r.Some? ==> from <= r.value && BoldAt(s, r.value)
    ensures r.Some? ==> forall k: nat :: from <= k < r.value ==> !BoldAt(s, k)
    ensures r.None? ==> forall k: nat :: from <= k ==> !BoldAt(s, k)
    decreases |s| - from
  {
    if from >= |s| then None
    else if BoldAt(s, from) then Some(from)
    else FirstBold(s, from + 1)
  }

  /** After a caption ending at `e`: whitespace, `</td>`, and a bold value
      somewhere further on. */
  predicate Captioned(s: string, e: nat)
  {
    e <= |s| && MatchAt(s, SkipSpace(s, e), "</td>") && FirstBold(s, SkipSpace(s, e) + 5).Some?
  }

  /** The whole pattern can match with the caption at `i`. */
  predicate CaptionAt(s: string, caption: string, i: nat)
  {
    MatchAt(s, i, caption) && Captioned(s, i + |caption|)
  }

  /** The leftmost index at or after `from` where the whole pattern can
      match: how the regular expression engine moves its starting point. */
  function FindCaption(s: string, caption: string, from: nat): (r: Option<nat>)
    ensures r.Some? ==> from <= r.value && CaptionAt(s, caption, r.value)
    decreases |s| - from
  {
    if from >= |s| then None
    else if CaptionAt(s, caption, from) then Some(from)
    else FindCaption(s, caption, from + 1)
  }

  /** The search skips no starting point: nothing before the index found
      starts a match, and when none is found nothing does. */
  lemma {:induction false} FindCaptionSpec(s: string, caption: string, from: nat)
    ensures var r := FindCaption(s, caption, from);
      && (r.Some? ==> forall k: nat :: from <= k < r.value ==> !CaptionAt(s, caption, k))
      && (r.None? ==> forall k: nat :: from <= k ==> !CaptionAt(s, caption, k))
    decreases |s| - from
  {
    if from >= |s| {
      forall k: nat | from <= k ensures !CaptionAt(s, caption, k) {
        CaptionInside(s, caption, k);
      }
    } else if !CaptionAt(s, caption, from) {
      var r := FindCaption(s, caption, from + 1);
      FindCaptionSpec(s, caption, from + 1);
      assert FindCaption(s, caption, from) == r;
      if r.Some? {
        forall k: nat | from <= k < r.value ensures !CaptionAt(s, caption, k) {
          if k > from {
            assert from + 1 <= k < r.value;
          }
        }
      } else {
        forall k: nat | from <= k ensures !CaptionAt(s, caption, k) {
          if k > from {
            assert from + 1 <= k;
          }
        }
      }
    }
  }

  /** A match starts strictly inside the text. */
  lemma CaptionInside(s: string, caption: string, k: nat)
    ensures CaptionAt(s, caption, k) ==> k < |s|
  {
    if CaptionAt(s, caption, k) {
      var e := k + |caption|;
      assert e <= |s|;
      assert SkipSpace(s, e) + 5 <= |s|;
    }
  }

  /** The `<b>` the lazy search settles on for the caption ending at `e`. */
  function BoldAfter(s: string, e: nat): (b: nat)
    requires Captioned(s, e)
    ensures BoldAt(s, b)
  {
    FirstBold(s, SkipSpace(s, e) + 5).value
  }

  /** `_extract_b_after_label` (analyze.py:214-219): the normalised bold value
      of the leftmost match, or nothing when the pattern matches nowhere.
      Normalising the whole stretch is normalising the captured group, since
      the two differ only by whitespace at their ends. */
  function ExtractBAfterLabel(html: string, caption: string): (r: Option<string>)
    ensures r.Some? ==> Normal(r.value) && '<' !in r.value
  {
    match FindCaption(html, caption, 0)
    case None => None
    case Some(i) => Some(BoldValue(html, BoldAfter(html, i + |caption|)))
  }

  /** The normalised text of the bold value after the `<b>` at `b`. */
  function BoldValue(s: string, b: nat): (r: string)
    requires BoldAt(s, b)
    ensures Normal(r) && '<' !in r
  {
    var c := BoldText(s, b + 3);
    NormKeepsChar(c, '<');
    Norm(c)
  }

  /** With the caption at `i`, the pattern can match at `i` exactly when the
      caption is `Captioned`; the `<b>` chosen is then the first one that
      completes a match. */
  lemma CaptionedMeansMatch(s: string, caption: string, i: nat)
    ensures CaptionAt(s, caption, i) <==> exists b: nat :: LabelMatch(s, caption, i, b)
    ensures CaptionAt(s, caption, i) ==>
      var b := BoldAfter(s, i + |caption|);
      LabelMatch(s, caption, i, b) && forall b': nat :: b' < b ==> !LabelMatch(s, caption, i, b')
  {
    if CaptionAt(s, caption, i) {
      assert LabelMatch(s, caption, i, BoldAfter(s, i + |caption|));
    }
  }

  /** `ExtractBAfterLabel` reads nothing exactly when the pattern matches
      nowhere. */
  lemma ExtractNoneIffNoMatch(html: string, caption: string)
    ensures ExtractBAfterLabel(html, caption).None? <==> forall i: nat, b: nat :: !LabelMatch(html, caption, i, b)
  {
    forall i: nat, b: nat | LabelMatch(html, caption, i, b)
      ensures CaptionAt(html, caption, i)
    {
      CaptionedMeansMatch(html, caption, i);
    }
    var f := FindCaption(html, caption, 0);
    FindCaptionSpec(html, caption, 0);
    if f.Some? {
      CaptionedMeansMatch(html, caption, f.value);
    }
  }

  /** The value `ExtractBAfterLabel` reads is the one of the leftmost match:
      the earliest caption that starts a match, and for it the earliest `<b>`
      that completes one. */
  lemma ExtractIsLeftmost(html: string, caption: string, i: nat, b: nat)
    requires LabelMatch(html, caption, i, b)
    requires forall i': nat, b': nat :: i' < i ==> !LabelMatch(html, caption, i', b')
    requires forall b': nat :: b' < b ==> !LabelMatch(html, caption, i, b')
    ensures ExtractBAfterLabel(html, caption) == Some(BoldValue(html, b))
  {
    NoEarlierCaption(html, caption, i);
    FirstBoldOfMatch(html, caption, i, b);
    FindCaptionAt(html, caption, i);
  }

  /** No caption before `i` starts a match. */
  lemma NoEarlierCaption(s: string, caption: string, i: nat)
    requires forall i': nat, b': nat :: i' < i ==> !LabelMatch(s, caption, i', b')
    ensures forall k: nat :: k < i ==> !CaptionAt(s, caption, k)
  {
    forall k: nat | k < i
      ensures !CaptionAt(s, caption, k)
    {
      CaptionedMeansMatch(s, caption, k);
    }
  }

  /** The `<b>` of the shortest match from the caption at `i` is the one
      `BoldAfter` finds. */
  lemma FirstBoldOfMatch(s: string, caption: string, i: nat, b: nat)
    requires LabelMatch(s, caption, i, b)
    requires forall b': nat :: b' < b ==> !LabelMatch(s, caption, i, b')
    ensures CaptionAt(s, caption, i) && BoldAfter(s, i + |caption|) == b
  {
    CaptionedMeansMatch(s, caption, i);
  }

  /** The search settles on the first caption that starts a match. */
  lemma FindCaptionAt(s: string, caption: string, i: nat)
    requires CaptionAt(s, caption, i)
    requires forall k: nat :: k < i ==> !CaptionAt(s, caption, k)
    ensures FindCaption(s, caption, 0) == Some(i)
  {
    FindCaptionSpec(s, caption, 0);
  }

  /** The first `<` from `k` on is at `q` when `s[q]` is one and none comes
      before it. */
  lemma {:induction false} NextLtAt(s: string, k: nat, q: nat)
    requires k <= q < |s| && s[q] == '<'
    requires forall m :: k <= m < q ==> s[m] != '<'
    ensures NextLt(s, k) == q
    decreases q - k
  {
    if k < q {
      NextLtAt(s, k + 1, q);
    }
  }

  /** Where the pieces of a caption cell followed by a bold value lie. */
  lemma LabelledPieces(caption: string, v: string)
    ensures var s := caption + "</td><b>" + v + "</b>";
      var n := |caption|;
      && |s| == n + 12 + |v|
      && s[..n] == caption && s[n..n + 5] == "</td>" && s[n + 5..n + 8] == "<b>"
      && s[n + 8..n + 8 + |v|] == v && s[n + 8 + |v|..] == "</b>"
  {
  }

  /** Text laid out as a caption, `</td>`, `<b>`, a value without `<` and
      `</b>` matches the pattern with that value as the bold text. */
  lemma LabelledMatch(s: string, caption: string, v: string)
    requires v != [] && '<' !in v
    requires var n := |caption|;
      && |s| == n + 12 + |v|
      && s[..n] == caption && s[n..n + 5] == "</td>" && s[n + 5..n + 8] == "<b>"
      && s[n + 8..n + 8 + |v|] == v && s[n + 8 + |v|..] == "</b>"
    ensures LabelMatch(s, caption, 0, |caption| + 5)
    ensures BoldText(s, |caption| + 8) == v
  {
    CaptionCell(s, caption);
    BoldCell(s, |caption|, v);
  }

  /** A caption and `</td>` right after it. */
  lemma CaptionCell(s: string, caption: string)
    requires |caption| + 5 <= |s| && s[..|caption|] == caption && s[|caption|..|caption| + 5] == "</td>"
    ensures MatchAt(s, 0, caption) && SkipSpace(s, |caption|) == |caption| && MatchAt(s, |caption|, "</td>")
  {
    var n := |caption|;
    MatchExact(s, 0, caption);
    MatchExact(s, n, "</td>");
    assert s[n] == s[n..n + 5][0];
    NoSpaceToSkip(s, n);
  }

  /** `<b>` at `n + 5`, a value without `<` and `</b>`, ending the text. */
  lemma BoldCell(s: string, n: nat, v: string)
    requires v != [] && '<' !in v
    requires |s| == n + 12 + |v| && s[n + 5..n + 8] == "<b>" && s[n + 8..n + 8 + |v|] == v && s[n + 8 + |v|..] == "</b>"
    ensures BoldAt(s, n + 5) && BoldText(s, n + 8) == v
  {
    var q := n + 8 + |v|;
    MatchExact(s, n + 5, "<b>");
    assert s[q..q + 4] == "</b>";
    MatchExact(s, q, "</b>");
    assert s[q] == s[q..][0];
    NextLtPast(s, n + 8, v);
  }

  /** At a character that is not whitespace there is nothing to skip. */
  lemma NoSpaceToSkip(s: string, i: nat)
    requires i < |s| && !IsSpace(s[i])
    ensures SkipSpace(s, i) == i
  {
  }

  /** Past a stretch without `<` that a `<` follows, the next `<` is that
      one. */
  lemma NextLtPast(s: string, k: nat, v: string)
    requires k + |v| < |s| && s[k..k + |v|] == v && '<' !in v && s[k + |v|] == '<'
    ensures NextLt(s, k) == k + |v|
  {
    forall m | k <= m < k + |v| ensures s[m] != '<' {
      assert s[m] == s[k..k + |v|][m - k];
      assert v[m - k] in v;
    }
    NextLtAt(s, k, k + |v|);
  }

  /** A caption cell followed directly by a bold value is read back as that
      value, normalised. */
  lemma LabelledValueRead(caption: string, v: string)
    requires v != [] && '<' !in v
    ensures ExtractBAfterLabel(caption + "</td><b>" + v + "</b>", caption) == Some(Norm(v))
  {
    var s := caption + "</td><b>" + v + "</b>";
    LabelledPieces(caption, v);
    LabelledMatch(s, caption, v);
    ExtractIsLeftmost(s, caption, 0, |caption| + 5);
  }

  /** `(` opening `\(([-+]?\d+(?:\.\d+)?)%\)` at `p`: the index of the `%`
      that ends the group, when the rest of the pattern matches. */
  function PctEnd(t: string, p: nat): (r: Option<nat>)
    requires p < |t|
    ensures r.Some? ==> p + 1 < r.value && r.value + 1 < |t| && t[r.value] == '%' && t[r.value + 1] == ')'
  {
    var i0 := if p + 1 < |t| && (t[p + 1] == '-' || t[p + 1] == '+') then p + 2 else p + 1;
    var d := DigitRunEnd(t, i0);
    if d == i0 then None
    else
      var e := if d + 1 < |t| && t[d] == '.' && IsDigit(t[d + 1]) then DigitRunEnd(t, d + 1) else d;
      if e + 1 < |t| && t[e] == '%' && t[e + 1] == ')' then Some(e) else None
  }

  /** The percentage pattern matches at `p`. */
  predicate PctAt(t: string, p: nat)
  {
    p < |t| && t[p] == '(' && PctEnd(t, p).Some?
  }

  /** The leftmost index at or after `from` where the percentage pattern
      matches. */
  function FindPct(t: string, from: nat): (r: Option<nat>)
    ensures r.Some? ==> from <= r.value && PctAt(t, r.value)
    ensures r.Some? ==> forall p: nat :: from <= p < r.value ==> !PctAt(t, p)
    ensures r.None? ==> forall p: nat :: from <= p ==> !PctAt(t, p)
    decreases |t| - from
  {
    if from >= |t| then None
    else if PctAt(t, from) then Some(from)
    else FindPct(t, from + 1)
  }

  /** The number the group of a percentage match at `p` denotes: its sign
      applied to its whole digits plus its decimal digits, if any. */
  function PctValue(t: string, p: nat): real
    requires PctAt(t, p)
  {
    var e := PctEnd(t, p).value;
    var i0 := if t[p + 1] == '-' || t[p + 1] == '+' then p + 2 else p + 1;
    var d := DigitRunEnd(t, i0);
    var m := DigitsValue(t[i0..d]) as real + (if d < e then Fraction(DigitsValue(t[d + 1..e]), e - d - 1) else 0.0);
    if t[p + 1] == '-' then -m else m
  }

  /** `float()` of the group of the leftmost percentage match; absent
      exactly when there is no match, since `float()` accepts every group
      the pattern admits. */
  function Percent(t: string): (r: Option<real>)
    ensures r.None? <==> forall p: nat :: !PctAt(t, p)
    ensures FindPct(t, 0).Some? ==> r == Some(PctValue(t, FindPct(t, 0).value))
  {
    match FindPct(t, 0)
    case None => None
    case Some(p) =>
      PctGroupParses(t, p);
      ParseFloat(t[p + 1..PctEnd(t, p).value])
  }

  /** `float()` reads the group of a percentage match as the number it
      denotes. */
  lemma PctGroupParses(t: string, p: nat)
    requires PctAt(t, p)
    ensures ParseFloat(t[p + 1..PctEnd(t, p).value]) == Some(PctValue(t, p))
  {
    var i0, d, e := PctParts(t, p);
    var g, sg, k := t[p + 1..e], i0 - p - 1, d - p - 1;
    GroupSlices(t, p, i0, d, e);
    PctValueOfGroup(t, p, i0, d, e);
    SignedDecimalParses(g, sg, k);
  }

  /** The value of `[sign] digits [. digits]` with the whole digits in
      `g[sg..k]`. */
  function DecimalValue(g: string, sg: nat, k: nat): real
    requires 0 < |g| && sg <= k <= |g| && AllDigits(g[sg..k])
    requires k < |g| ==> AllDigits(g[k + 1..])
  {
    var m := DigitsValue(g[sg..k]) as real + (if k < |g| then Fraction(DigitsValue(g[k + 1..]), |g| - k - 1) else 0.0);
    if g[0] == '-' then -m else m
  }

  /** The value `PctParts` gives for a match, read on the group alone. */
  lemma PctValueOfGroup(t: string, p: nat, i0: nat, d: nat, e: nat)
    requires PctAt(t, p) && p + 1 <= i0 < d <= e < |t| && AllDigits(t[i0..d])
    requires d < e ==> d + 1 < e && AllDigits(t[d + 1..e])
    requires var m := DigitsValue(t[i0..d]) as real + (if d < e then Fraction(DigitsValue(t[d + 1..e]), e - d - 1) else 0.0);
      PctValue(t, p) == if t[p + 1] == '-' then -m else m
    requires var g := t[p + 1..e];
      && g[i0 - p - 1..d - p - 1] == t[i0..d]
      && (d < e ==> g[d - p..] == t[d + 1..e])
      && g[0] == t[p + 1]
    ensures PctValue(t, p) == DecimalValue(t[p + 1..e], i0 - p - 1, d - p - 1)
  {
    var g, sg, k := t[p + 1..e], i0 - p - 1, d - p - 1;
    var m := DigitsValue(g[sg..k]) as real + (if k < |g| then Fraction(DigitsValue(g[k + 1..]), |g| - k - 1) else 0.0);
    assert DecimalValue(g, sg, k) == if g[0] == '-' then -m else m;
  }

  /** `float()` of `[sign] digits [. digits]` is the number it denotes. */
  lemma SignedDecimalParses(g: string, sg: nat, k: nat)
    requires 0 < |g| && sg == (if g[0] == '-' || g[0] == '+' then 1 else 0)
    requires sg < k <= |g| && AllDigits(g[sg..k])
    requires k < |g| ==> g[k] == '.' && k + 1 < |g| && AllDigits(g[k + 1..])
    ensures ParseFloat(g) == Some(DecimalValue(g, sg, k))
  {
    var m := DigitsValue(g[sg..k]) as real + (if k < |g| then Fraction(DigitsValue(g[k + 1..]), |g| - k - 1) else 0.0);
    assert DecimalValue(g, sg, k) == if g[0] == '-' then -m else m;
    MantissaOfGroup(g, sg, k, m);
    ParseFloatUnfold(g, sg, |g|, m);
    ExponentAtEnd(g, if g[0] == '-' then -m else m);
  }

  lemma GroupSlices(t: string, p: nat, i0: nat, d: nat, e: nat)
    requires p + 1 <= i0 <= d <= e <= |t|
    ensures var g := t[p + 1..e];
      && g[i0 - p - 1..d - p - 1] == t[i0..d]
      && (d < e ==> g[d - p - 1] == t[d] && g[d - p..] == t[d + 1..e])
      && (p + 1 < e ==> g[0] == t[p + 1])
  {
    var g := t[p + 1..e];
    assert forall k | 0 <= k < d - i0 :: g[i0 - p - 1..d - p - 1][k] == t[i0..d][k];
  }

  /** The pieces of a percentage match at `p`: the digits start at `i0`,
      the whole part ends at `d` and the group at `e`. */
  lemma PctParts(t: string, p: nat) returns (i0: nat, d: nat, e: nat)
    requires PctAt(t, p)
    ensures e == PctEnd(t, p).value
    ensures i0 == (if t[p + 1] == '-' || t[p + 1] == '+' then p + 2 else p + 1)
    ensures d == DigitRunEnd(t, i0) && i0 < d <= e < |t|
    ensures AllDigits(t[i0..d])
    ensures d < e ==> t[d] == '.' && d + 1 < e && AllDigits(t[d + 1..e])
    ensures var m := DigitsValue(t[i0..d]) as real + (if d < e then Fraction(DigitsValue(t[d + 1..e]), e - d - 1) else 0.0);
      PctValue(t, p) == if t[p + 1] == '-' then -m else m
  {
    e := PctEnd(t, p).value;
    i0 := if t[p + 1] == '-' || t[p + 1] == '+' then p + 2 else p + 1;
    d := DigitRunEnd(t, i0);
  }

  /** The mantissa of `[sign] digits [. digits]`, read to the end. */
  lemma MantissaOfGroup(g: string, sg: nat, k: nat, m: real)
    requires sg < k <= |g| && AllDigits(g[sg..k])
    requires k < |g| ==> g[k] == '.' && k + 1 < |g| && AllDigits(g[k + 1..])
    requires m == DigitsValue(g[sg..k]) as real + (if k < |g| then Fraction(DigitsValue(g[k + 1..]), |g| - k - 1) else 0.0)
    ensures Mantissa(g, sg) == Some((m, |g|))
  {
    DigitRunEndAt(g, sg, k);
    if k < |g| {
      assert g[k + 1..|g|] == g[k + 1..];
      DigitRunEndAt(g, k + 1, |g|);
    }
  }

  /** A worked case: the percentage of a count cell such as `7 (70.00%)`. */
  lemma PercentOfCountCell()
    ensures Percent("7 (70.00%)") == Some(70.0)
  {
    var t := "7 (70.00%)";
    DigitRunEndAt(t, 3, 5);
    DigitRunEndAt(t, 6, 8);
    assert PctEnd(t, 2) == Some(8);
    assert !PctAt(t, 0) && !PctAt(t, 1) && PctAt(t, 2);
    assert FindPct(t, 0) == Some(2);
    assert t[3..5] == "70" && t[6..8] == "00";
    assert DigitsValue("70") == 70 && DigitsValue("00") == 0;
    assert PctValue(t, 2) == 70.0;
  }

  /** `_extract_count_pct_after_label` (analyze.py:222-235): the count read
      from the labelled value and the percentage in parentheses inside it. */
  function ExtractCountPctAfterLabel(html: string, caption: string): (r: (Option<int>, Option<real>))
    ensures ExtractBAfterLabel(html, caption).None? ==> r == (None, None)
    ensures ExtractBAfterLabel(html, caption).Some? ==>
      r.0 == ParseInt(ExtractBAfterLabel(html, caption).value) && r.1 == Percent(ExtractBAfterLabel(html, caption).value)
    ensures r.0.Some? ==> HasDigit(ExtractBAfterLabel(html, caption).value)
  {
    match ExtractBAfterLabel(html, caption)
    case None => (None, None)
    case Some(txt) => (ParseInt(txt), Percent(txt))
  }

  /** The figures `_parse_results_summary` returns. */
  datatype Summary = Summary(
    totalProfit: Option<real>,
    totalTrades: Option<int>,
    wins: Option<int>,
    losses: Option<int>,
    winrate: Option<real>)

  /** `_parse_money` of an optional value: `_norm(None)` is empty, so a
      missing value stays missing. */
  function MoneyOf(v: Option<string>): (r: Option<real>)
    ensures v.None? ==> r.None?
    ensures v.Some? ==> r == ParseMoney(v.value)
  {
    match v
    case None => None
    case Some(s) => ParseMoney(s)
  }

  /** `_parse_int` of an optional value. */
  function IntOf(v: Option<string>): (r: Option<int>)
    ensures v.None? ==> r.None?
    ensures v.Some? ==> r == ParseInt(v.value)
    ensures r.Some? <==> v.Some? && HasDigit(v.value)
  {
    match v
    case None => None
    case Some(s) => ParseInt(s)
  }

  /** The win rate of analyze.py:243-247: the captured percentage divided by
      100 takes precedence; otherwise wins over wins plus losses when both
      counts are present and their sum is positive; otherwise absent. */
  function WinRate(pct: Option<real>, wins: Option<int>, losses: Option<int>): (r: Option<real>)
    ensures pct.Some? ==> r == Some(pct.value / 100.0)
    ensures pct.None? ==> (r.Some? <==> wins.Some? && losses.Some? && wins.value + losses.value > 0)
    ensures pct.None? && r.Some? ==> r.value * (wins.value + losses.value) as real == wins.value as real
  {
    if pct.Some? then Some(pct.value / 100.0)
    else if wins.Some? && losses.Some? && wins.value + losses.value > 0 then
      var n := (wins.value + losses.value) as real;
      var w := wins.value as real / n;
      assert w * n == wins.value as real;
      Some(w)
    else None
  }

  /** With counts that are not negative, the rate computed from them is a
      fraction between 0 and 1. */
  lemma WinRateBounded(wins: int, losses: int)
    requires wins >= 0 && losses >= 0 && wins + losses > 0
    ensures var r := WinRate(None, Some(wins), Some(losses));
      r.Some? && 0.0 <= r.value <= 1.0
  {
    ShareBounds(wins as real, (wins + losses) as real);
  }

  /** Seven winning and three losing trades without a percentage give a
      rate of 0.7. */
  lemma WinRateSevenOfTen()
    ensures WinRate(None, Some(7), Some(3)) == Some(0.7)
  {
  }

  const TotalNetProfitLabel := "Total Net Profit:"
  const TotalTradesLabel := "Total Trades:"
  const ProfitTradesLabel := "Profit Trades (% of total):"
  const LossTradesLabel := "Loss Trades (% of total):"

  /** `_parse_results_summary` (analyze.py:238-255). */
  function ParseResultsSummary(html: string): (r: Summary)
    ensures r.totalProfit == MoneyOf(ExtractBAfterLabel(html, TotalNetProfitLabel))
    ensures r.totalTrades == IntOf(ExtractBAfterLabel(html, TotalTradesLabel))
    ensures r.wins == ExtractCountPctAfterLabel(html, ProfitTradesLabel).0
    ensures r.losses == ExtractCountPctAfterLabel(html, LossTradesLabel).0
    ensures r.winrate == WinRate(ExtractCountPctAfterLabel(html, ProfitTradesLabel).1, r.wins, r.losses)
  {
    var (wins, pct) := ExtractCountPctAfterLabel(html, ProfitTradesLabel);
    var (losses, _) := ExtractCountPctAfterLabel(html, LossTradesLabel);
    Summary(
      MoneyOf(ExtractBAfterLabel(html, TotalNetProfitLabel)),
      IntOf(ExtractBAfterLabel(html, TotalTradesLabel)),
      wins,
      losses,
      WinRate(pct, wins, losses))
  }

  /** A report without the "Profit Trades" caption has no win count, no
      percentage and therefore no win rate. */
  lemma NoProfitLabelNoWinRate(html: string)
    requires forall i: nat, b: nat :: !LabelMatch(html, ProfitTradesLabel, i, b)
    ensures ParseResultsSummary(html).wins.None? && ParseResultsSummary(html).winrate.None?
  {
    ExtractNoneIffNoMatch(html, ProfitTradesLabel);
  }

  /** A "Total Net Profit" caption followed by an amount written with two
      decimals gives that amount as the total profit. */
  lemma TotalProfitRead(c: int)
    ensures ParseResultsSummary(TotalNetProfitLabel + "</td><b>" + CentsToString(c) + "</b>").totalProfit
      == Some(c as real / 100.0)
  {
    var v := CentsToString(c);
    CentsPlain(c);
    assert '<' !in v;
    NoSpaceIsNormal(v);
    LabelledValueRead(TotalNetProfitLabel, v);
    ParseMoneyRendered(c);
  }

  /** A "Total Trades" caption followed by a written integer gives that
      integer as the trade count. */
  lemma TotalTradesRead(n: int)
    ensures ParseResultsSummary(TotalTradesLabel + "</td><b>" + IntToString(n) + "</b>").totalTrades == Some(n)
  {
    var v := IntToString(n);
    IntPlain(n);
    assert '<' !in v;
    NoSpaceIsNormal(v);
    LabelledValueRead(TotalTradesLabel, v);
    ParseIntRendered(n);
  }
}
