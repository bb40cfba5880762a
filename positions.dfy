/** The positions extractor of the report reader (analyze.py
    `_extract_positions_block`, `_parse_positions_rows_for_charts`): the part
    of the report between the "Positions" and "Results" headings, its table
    rows, and the trade records read from the rows that have the layout of
    a closed position.

    The regular expressions of the original are written out as scanners.
    `findall` becomes a scan that restarts at the end of each match and
    otherwise moves on by one character. */
module Positions {
  import opened Basics
  import opened Text
  import opened Scalars
  import opened Summary

  const PositionsWord := "Positions"
  const ResultsWord := "Results"

  /** `<b>\s*word\s*</b>` matches at `i`, ignoring case. Both `\s*` are
      greedy and are followed by a character that is not whitespace, so each
      consumes the whole whitespace run. */
  predicate HeadingAt(s: string, i: nat, word: string)
  {
    && MatchAt(s, i, "<b>")
    && MatchAt(s, SkipSpace(s, i + 3), word)
    && MatchAt(s, SkipSpace(s, SkipSpace(s, i + 3) + |word|), "</b>")
  }

  /** The leftmost index at or after `from` where the heading matches. */
  function FindHeading(s: string, word: string, from: nat): (r: Option<nat>)
    ensures r.Some? ==> from <= r.value && HeadingAt(s, r.value, word)
    decreases |s| - from
  {
    if from >= |s| then None
    else if HeadingAt(s, from, word) then Some(from)
    else FindHeading(s, word, from + 1)
  }

  /** The search skips no heading: none before the index found, and none at
      all when nothing is found. */
  lemma FindHeadingSpec(s: string, word: string, from: nat)
    ensures var r := FindHeading(s, word, from);
      && (r.Some? ==> forall k: nat :: from <= k < r.value ==> !HeadingAt(s, k, word))
      && (r.None? ==> forall k: nat :: from <= k ==> !HeadingAt(s, k, word))
  {
    if FindHeading(s, word, from).Some? {
      FindHeadingFirst(s, word, from);
    } else {
      FindHeadingNone(s, word, from);
    }
  }

  lemma {:induction false} FindHeadingFirst(s: string, word: string, from: nat)
    requires FindHeading(s, word, from).Some?
    ensures forall k: nat :: from <= k < FindHeading(s, word, from).value ==> !HeadingAt(s, k, word)
    decreases |s| - from
  {
    if !HeadingAt(s, from, word) {
      var r := FindHeading(s, word, from + 1);
      assert FindHeading(s, word, from) == r;
      FindHeadingFirst(s, word, from + 1);
      forall k: nat | from <= k < r.value ensures !HeadingAt(s, k, word) {
        if k > from {
          assert from + 1 <= k < r.value;
        }
      }
    }
  }

  lemma {:induction false} FindHeadingNone(s: string, word: string, from: nat)
    requires FindHeading(s, word, from).None?
    ensures forall k: nat :: from <= k ==> !HeadingAt(s, k, word)
    decreases |s| - from
  {
    if from >= |s| {
      forall k: nat | from <= k ensures !HeadingAt(s, k, word) {
        HeadingInside(s, k, word);
      }
    } else {
      assert FindHeading(s, word, from) == FindHeading(s, word, from + 1);
      FindHeadingNone(s, word, from + 1);
      forall k: nat | from <= k ensures !HeadingAt(s, k, word) {
        if k > from {
          assert from + 1 <= k;
        }
      }
    }
  }

  /** A heading starts strictly inside the text. */
  lemma HeadingInside(s: string, k: nat, word: string)
    ensures HeadingAt(s, k, word) ==> k < |s|
  {
  }

  /** `_extract_positions_block` (analyze.py:276-287): from the first
      "Positions" heading up to, not including, the first "Results" heading
      after it; empty when there is no "Positions" heading. */
  function ExtractPositionsBlock(html: string): (r: string)
  {
    match FindHeading(html, PositionsWord, 0)
    case None => []
    case Some(start) => UpToResults(html[start..])
  }

  /** The text up to, not including, its first "Results" heading; all of it
      when there is none. */
  function UpToResults(tail: string): string
  {
    match FindHeading(tail, ResultsWord, 0)
    case None => tail
    case Some(m) => tail[..m]
  }

  /** No index starts both headings: after the same `<b>` and whitespace one
      needs a `p` and the other an `r`. */
  lemma HeadingsDiffer(s: string, k: nat)
    ensures !(HeadingAt(s, k, PositionsWord) && HeadingAt(s, k, ResultsWord))
  {
    if HeadingAt(s, k, PositionsWord) {
      var j := SkipSpace(s, k + 3);
      assert Fold(s[j + 0]) == Fold(PositionsWord[0]) == 'p';
      assert Fold(ResultsWord[0]) == 'r';
    }
  }

  /** Cutting text at `n` leaves the end of a whitespace run alone when the
      run stops before `n`. */
  lemma {:induction false} SkipSpacePrefix(t: string, n: nat, i: nat)
    requires i <= n <= |t|
    ensures SkipSpace(t[..n], i) < n ==> SkipSpace(t, i) == SkipSpace(t[..n], i)
    decreases n - i
  {
    if i < n && IsSpace(t[i]) {
      assert t[..n][i] == t[i];
      SkipSpacePrefix(t, n, i + 1);
    } else if i < n {
      assert t[..n][i] == t[i];
    }
  }

  /** A heading inside a prefix of the text is a heading of the text. */
  lemma HeadingPrefix(t: string, n: nat, k: nat, word: string)
    requires n <= |t| && HeadingAt(t[..n], k, word)
    ensures HeadingAt(t, k, word)
  {
    var j := SkipSpace(t[..n], k + 3);
    HeadingCut(t, n, k, word, j, SkipSpace(t[..n], j + |word|));
  }

  /** The pieces of a heading inside `t[..n]`, read in `t`. */
  lemma HeadingCut(t: string, n: nat, k: nat, word: string, j: nat, e: nat)
    requires n <= |t| && k + 3 <= n
    requires j == SkipSpace(t[..n], k + 3) && j + |word| <= n
    requires e == SkipSpace(t[..n], j + |word|) && e + 4 <= n
    requires MatchAt(t[..n], k, "<b>") && MatchAt(t[..n], j, word) && MatchAt(t[..n], e, "</b>")
    ensures SkipSpace(t, k + 3) == j && SkipSpace(t, j + |word|) == e
    ensures MatchAt(t, k, "<b>") && MatchAt(t, j, word) && MatchAt(t, e, "</b>")
  {
    SkipSpacePrefix(t, n, k + 3);
    SkipSpacePrefix(t, n, j + |word|);
    MatchPrefix(t, n, k, "<b>");
    MatchPrefix(t, n, j, word);
    MatchPrefix(t, n, e, "</b>");
  }

  /** A pattern that matches in a prefix of the text matches in the text. */
  lemma MatchPrefix(t: string, n: nat, i: nat, p: string)
    requires n <= |t| && MatchAt(t[..n], i, p)
    ensures MatchAt(t, i, p)
  {
    forall k | 0 <= k < |p| ensures Fold(t[i + k]) == Fold(p[k]) {
      assert t[..n][i + k] == t[i + k];
    }
  }

  /** A heading read from where it starts. */
  lemma HeadingSuffix(s: string, d: nat, word: string)
    requires HeadingAt(s, d, word)
    ensures HeadingAt(s[d..], 0, word)
  {
    var j := SkipSpace(s, d + 3);
    HeadingShift(s, d, word, j, SkipSpace(s, j + |word|));
  }

  /** The pieces of a heading at `d`, read in the text from `d` on. */
  lemma HeadingShift(s: string, d: nat, word: string, j: nat, e: nat)
    requires d + 3 <= |s| && j == SkipSpace(s, d + 3)
    requires j + |word| <= |s| && e == SkipSpace(s, j + |word|)
    requires MatchAt(s, d, "<b>") && MatchAt(s, j, word) && MatchAt(s, e, "</b>")
    ensures MatchAt(s[d..], 0, "<b>")
    ensures SkipSpace(s[d..], 3) == j - d && MatchAt(s[d..], j - d, word)
    ensures SkipSpace(s[d..], j - d + |word|) == e - d && MatchAt(s[d..], e - d, "</b>")
  {
    MatchShift(s, d, 0, "<b>");
    SkipSpaceShift(s, d, 3);
    MatchShift(s, d, j - d, word);
    SkipSpaceShift(s, d, j - d + |word|);
    MatchShift(s, d, e - d, "</b>");
  }

  /** A pattern matches in a suffix of the text where it matches in the
      text. */
  lemma MatchShift(s: string, d: nat, i: nat, p: string)
    requires d + i <= |s|
    ensures MatchAt(s[d..], i, p) <==> MatchAt(s, d + i, p)
  {
    if MatchAt(s, d + i, p) {
      forall k | 0 <= k < |p| ensures Fold(s[d..][i + k]) == Fold(p[k]) {
        assert s[d..][i + k] == s[d + i + k];
      }
    }
    if MatchAt(s[d..], i, p) {
      forall k | 0 <= k < |p| ensures Fold(s[d + i + k]) == Fold(p[k]) {
        assert s[d..][i + k] == s[d + i + k];
      }
    }
  }

  /** The block is empty exactly when the report has no "Positions"
      heading. */
  lemma PositionsBlockFound(html: string)
    ensures ExtractPositionsBlock(html) == [] <==> forall k: nat :: !HeadingAt(html, k, PositionsWord)
  {
    FindHeadingSpec(html, PositionsWord, 0);
    match FindHeading(html, PositionsWord, 0)
    case None =>
    case Some(start) =>
      var tail := html[start..];
      HeadingSuffix(html, start, PositionsWord);
      HeadingsDiffer(tail, 0);
  }

  /** The block holds no "Results" heading. */
  lemma PositionsBlockEndsBeforeResults(html: string)
    ensures forall k: nat :: !HeadingAt(ExtractPositionsBlock(html), k, ResultsWord)
  {
    match FindHeading(html, PositionsWord, 0)
    case None =>
    case Some(start) =>
      var tail := html[start..];
      FindHeadingSpec(tail, ResultsWord, 0);
      match FindHeading(tail, ResultsWord, 0)
      case None =>
      case Some(m) =>
        forall k: nat | HeadingAt(tail[..m], k, ResultsWord)
          ensures false
        {
          HeadingInside(tail[..m], k, ResultsWord);
          HeadingPrefix(tail, m, k, ResultsWord);
        }
  }

  /** The block starts at the first "Positions" heading of the report and
      stops at the first "Results" heading after it, or at the end. */
  lemma PositionsBlockBounds(html: string, start: nat)
    requires HeadingAt(html, start, PositionsWord)
    requires forall k: nat :: k < start ==> !HeadingAt(html, k, PositionsWord)
    ensures var r := ExtractPositionsBlock(html);
      && start + |r| <= |html| && r == html[start..start + |r|]
      && (start + |r| == |html| || HeadingAt(html[start..], |r|, ResultsWord))
  {
    FindHeadingAt(html, PositionsWord, start);
    BlockFrom(html, start);
  }

  /** The search settles on the first heading. */
  lemma FindHeadingAt(s: string, word: string, i: nat)
    requires HeadingAt(s, i, word)
    requires forall k: nat :: k < i ==> !HeadingAt(s, k, word)
    ensures FindHeading(s, word, 0) == Some(i)
  {
    FindHeadingSpec(s, word, 0);
  }

  /** Where the block lies once the "Positions" heading is found at
      `start`. */
  lemma BlockFrom(html: string, start: nat)
    requires FindHeading(html, PositionsWord, 0) == Some(start)
    ensures var r := ExtractPositionsBlock(html);
      && start + |r| <= |html| && r == html[start..start + |r|]
      && (start + |r| == |html| || HeadingAt(html[start..], |r|, ResultsWord))
  {
    assert ExtractPositionsBlock(html) == UpToResults(html[start..]);
    UpToResultsBounds(html, start);
  }

  /** Where the text up to the first "Results" heading after `start` lies. */
  lemma UpToResultsBounds(html: string, start: nat)
    requires start <= |html|
    ensures var r := UpToResults(html[start..]);
      && start + |r| <= |html| && r == html[start..start + |r|]
      && (start + |r| == |html| || HeadingAt(html[start..], |r|, ResultsWord))
  {
    var tail := html[start..];
    var r := UpToResults(tail);
    match FindHeading(tail, ResultsWord, 0)
    case None =>
      SuffixWhole(html, start, r);
    case Some(m) =>
      PrefixOfSuffix(html, start, m, r);
  }

  /** The rest of the text from `d` is the slice from `d` to the end. */
  lemma SuffixWhole(s: string, d: nat, r: string)
    requires d <= |s| && r == s[d..]
    ensures d + |r| == |s| && r == s[d..d + |r|]
  {
    assert forall k :: 0 <= k < |r| ==> r[k] == s[d + k] == s[d..d + |r|][k];
  }

  /** The first `m` characters of the text from `d` are the slice from `d`
      of length `m`. */
  lemma PrefixOfSuffix(s: string, d: nat, m: nat, r: string)
    requires d <= |s| && m <= |s| - d && r == s[d..][..m]
    ensures d + |r| <= |s| && |r| == m && r == s[d..d + |r|]
  {
    assert forall k :: 0 <= k < m ==> r[k] == s[d + k] == s[d..d + m][k];
  }

  /** Whitespace runs read the same in a suffix of the text. */
  lemma {:induction false} SkipSpaceShift(s: string, d: nat, i: nat)
    requires d + i <= |s|
    ensures SkipSpace(s[d..], i) + d == SkipSpace(s, d + i)
    decreases |s| - d - i
  {
    if d + i < |s| && IsSpace(s[d + i]) {
      assert s[d..][i] == s[d + i];
      SkipSpaceShift(s, d, i + 1);
    } else if d + i < |s| {
      assert s[d..][i] == s[d + i];
    }
  }

  /** The characters of `\w` (ASCII letters, digits and the underscore). */
  predicate WordChar(c: char)
  {
    'a' <= c <= 'z' || 'A' <= c <= 'Z' || '0' <= c <= '9' || c == '_'
  }

  /** `<name\b[^>]*>` at `i`, ignoring case: the index of the `>` closing the
      tag. `[^>]*` cannot pass a `>`, so the tag ends at the first one. */
  function OpenTagEnd(s: string, i: nat, name: string): (r: Option<nat>)
    ensures r.Some? ==> i + |name| + 1 <= r.value < |s| && s[r.value] == '>'
    ensures r.Some? ==> forall k :: i + |name| + 1 <= k < r.value ==> s[k] != '>'
  {
    var n := i + 1 + |name|;
    if MatchAt(s, i, "<" + name) && (n == |s| || !WordChar(s[n])) then IndexOf(s, '>', n) else None
  }

  /** `<name\b[^>]*>(.*?)</name>` at `i`, ignoring case and with `.`
      matching newlines: the bounds of the captured content, which runs to
      the first closing tag. */
  function ElementAt(s: string, i: nat, name: string): (r: Option<(nat, nat)>)
    ensures r.Some? ==> i < r.value.0 <= r.value.1 && MatchAt(s, r.value.1, "</" + name + ">")
    ensures r.Some? ==> forall k: nat :: r.value.0 <= k < r.value.1 ==> !MatchAt(s, k, "</" + name + ">")
  {
    match OpenTagEnd(s, i, name)
    case None => None
    case Some(q) =>
      match FindCI(s, "</" + name + ">", q + 1)
      case None => None
      case Some(c) => Some((q + 1, c))
  }

  /** `re.findall` of the element pattern from `from` on: the contents of
      the successive non-overlapping elements. */
  function Elements(s: string, name: string, from: nat): (r: seq<string>)
    decreases |s| - from
  {
    if from >= |s| then []
    else
      match ElementAt(s, from, name)
      case None => Elements(s, name, from + 1)
      case Some((a, c)) => [s[a..c]] + Elements(s, name, c + |name| + 3)
  }

  /** `x` is the content of an element that starts at or after `from`. */
  ghost predicate ElementFrom(s: string, name: string, from: nat, x: string)
  {
    exists i: nat :: from <= i && ElementContent(s, i, name) == Some(x)
  }

  /** The content of the element starting at `i`, if one does. */
  function ElementContent(s: string, i: nat, name: string): Option<string>
  {
    match ElementAt(s, i, name)
    case None => None
    case Some((a, c)) => Some(s[a..c])
  }

  /** `findall` finds nothing exactly when no element starts at or after
      `from`; whatever it finds is the content of such an element, the first
      one being the leftmost. */
  lemma ElementsSpec(s: string, name: string, from: nat)
    ensures var r := Elements(s, name, from);
      && (r == [] <==> forall i: nat :: from <= i ==> ElementAt(s, i, name).None?)
      && (forall k :: 0 <= k < |r| ==> ElementFrom(s, name, from, r[k]))
      && (r != [] ==> exists i: nat :: from <= i && ElementContent(s, i, name) == Some(r[0])
                        && forall j: nat :: from <= j < i ==> ElementAt(s, j, name).None?)
  {
    ElementsEmpty(s, name, from);
    ElementsFound(s, name, from);
    if Elements(s, name, from) != [] {
      var i := ElementsFirst(s, name, from);
    }
  }

  lemma {:induction false} ElementsEmpty(s: string, name: string, from: nat)
    ensures Elements(s, name, from) == [] <==> forall i: nat :: from <= i ==> ElementAt(s, i, name).None?
    decreases |s| - from
  {
    ElementsStep(s, name, from);
    if from >= |s| {
      forall i: nat | from <= i ensures ElementAt(s, i, name).None? {
        ElementPastEnd(s, i, name);
      }
    } else if ElementAt(s, from, name).None? {
      ElementsEmpty(s, name, from + 1);
    }
  }

  lemma {:induction false} ElementsFound(s: string, name: string, from: nat)
    ensures var r := Elements(s, name, from);
      forall k :: 0 <= k < |r| ==> ElementFrom(s, name, from, r[k])
    decreases |s| - from
  {
    var r := Elements(s, name, from);
    if from >= |s| {
      ElementsStep(s, name, from);
    } else if ElementAt(s, from, name).None? {
      ElementsStep(s, name, from);
      ElementsFound(s, name, from + 1);
      FoundEarlier(s, name, from, from + 1, r);
    } else {
      var (a, c) := ElementAt(s, from, name).value;
      var x, next := s[a..c], c + |name| + 3;
      ElementsCons(s, name, from, x, next);
      var rest := Elements(s, name, next);
      ElementsFound(s, name, next);
      FoundEarlier(s, name, from, next, rest);
      FoundCons(s, name, from, x, rest, r);
    }
  }

  /** An element at `from` is found first, and the search goes on past its
      closing tag. */
  lemma ElementsCons(s: string, name: string, from: nat, x: string, next: nat)
    requires from < |s| && ElementAt(s, from, name).Some?
    requires x == s[ElementAt(s, from, name).value.0..ElementAt(s, from, name).value.1]
    requires next == ElementAt(s, from, name).value.1 + |name| + 3
    ensures ElementContent(s, from, name) == Some(x) && from < next
    ensures Elements(s, name, from) == [x] + Elements(s, name, next)
  {
    ElementsStep(s, name, from);
  }

  /** Contents found from a later position are found from an earlier one. */
  lemma FoundEarlier(s: string, name: string, from: nat, later: nat, xs: seq<string>)
    requires from <= later
    requires forall k :: 0 <= k < |xs| ==> ElementFrom(s, name, later, xs[k])
    ensures forall k :: 0 <= k < |xs| ==> ElementFrom(s, name, from, xs[k])
  {
    forall k | 0 <= k < |xs| ensures ElementFrom(s, name, from, xs[k]) {
      var i: nat :| later <= i && ElementContent(s, i, name) == Some(xs[k]);
      assert from <= i;
    }
  }

  /** The content of the element at `from`, before contents found from
      `from`, are all found from `from`. */
  lemma FoundCons(s: string, name: string, from: nat, x: string, xs: seq<string>, r: seq<string>)
    requires ElementContent(s, from, name) == Some(x) && r == [x] + xs
    requires forall k :: 0 <= k < |xs| ==> ElementFrom(s, name, from, xs[k])
    ensures forall k :: 0 <= k < |r| ==> ElementFrom(s, name, from, r[k])
  {
    assert ElementFrom(s, name, from, x);
    forall k | 0 <= k < |r| ensures ElementFrom(s, name, from, r[k]) {
      if k > 0 {
        assert r[k] == xs[k - 1];
      }
    }
  }

  lemma NoElementBelow(s: string, name: string, from: nat, i: nat)
    requires ElementAt(s, from, name).None?
    requires forall j: nat :: from + 1 <= j < i ==> ElementAt(s, j, name).None?
    ensures forall j: nat :: from <= j < i ==> ElementAt(s, j, name).None?
  {
  }


  lemma {:induction false} ElementsFirst(s: string, name: string, from: nat) returns (i: nat)
    requires Elements(s, name, from) != []
    ensures from <= i && ElementContent(s, i, name) == Some(Elements(s, name, from)[0])
    ensures forall j: nat :: from <= j < i ==> ElementAt(s, j, name).None?
    decreases |s| - from
  {
    ElementsStep(s, name, from);
    if ElementAt(s, from, name).None? {
      i := ElementsFirst(s, name, from + 1);
      NoElementBelow(s, name, from, i);
    } else {
      i := from;
    }
  }

  /** One step of the search: nothing past the end, the next position when
      no element starts here, this element's content and the search after
      its closing tag otherwise. */
  lemma ElementsStep(s: string, name: string, from: nat)
    ensures from >= |s| ==> Elements(s, name, from) == []
    ensures from < |s| && ElementAt(s, from, name).None? ==>
      Elements(s, name, from) == Elements(s, name, from + 1)
    ensures from < |s| && ElementAt(s, from, name).Some? ==>
      && ElementContent(s, from, name).Some?
      && from < ElementAt(s, from, name).value.1
      && Elements(s, name, from) == [ElementContent(s, from, name).value]
                                    + Elements(s, name, ElementAt(s, from, name).value.1 + |name| + 3)
  {
  }

  /** No element starts at or past the end of the text. */
  lemma ElementPastEnd(s: string, i: nat, name: string)
    requires |s| <= i
    ensures ElementAt(s, i, name).None?
  {
  }

  /** A timestamp token `\b\d{4}\.\d{2}\.\d{2} \d{2}:\d{2}:\d{2}\b` at `i`. */
  predicate DtAt(s: string, i: nat)
  {
    && i + 19 <= |s|
    && DtShape(s[i..i + 19])
    && (i == 0 || !WordChar(s[i - 1]))
    && (i + 19 == |s| || !WordChar(s[i + 19]))
  }

  /** `_DT_RE.findall` from `from` on: the timestamp tokens, left to right. */
  function DtTokens(s: string, from: nat): (r: seq<string>)
    ensures forall k :: 0 <= k < |r| ==> DtShape(r[k])
    ensures r == [] <==> forall i: nat :: from <= i ==> !DtAt(s, i)
    decreases |s| - from
  {
    if from + 19 > |s| then []
    else if DtAt(s, from) then [s[from..from + 19]] + DtTokens(s, from + 19)
    else DtTokens(s, from + 1)
  }

  /** `p in s`: `p` occurs in `s` as a substring, case-sensitively. */
  predicate Contains(s: string, p: string)
  {
    exists i :: 0 <= i <= |s| && OccursAt(s, i, p)
  }

  predicate OccursAt(s: string, i: nat, p: string)
  {
    i + |p| <= |s| && s[i..i + |p|] == p
  }

  const ColspanDouble := "colspan=\"2\""
  const ColspanSingle := "colspan='2'"

  /** A trade record read from a positions row: the symbol, the profit and
      the close time when it parses. */
  datatype Row = Row(symbol: string, profit: real, t: Option<DateTime>)

  /** The counters `_parse_positions_rows_for_charts` reports. */
  datatype PositionsDebug = PositionsDebug(blockFound: bool, rowsSeen: nat, rowsParsed: nat)

  /** What the loop of analyze.py:301-327 does with one row: skip it without
      counting it, count it as seen without a record, or count it and emit
      a record. */
  datatype Outcome = Skipped | Unparsed | Parsed(row: Row)

  /** A row counted as seen: a `colspan="2"` (or `colspan='2'`) cell, a
      timestamp token and at least six cells. */
  predicate Qualifies(tr: string)
  {
    && (Contains(tr, ColspanDouble) || Contains(tr, ColspanSingle))
    && DtTokens(tr, 0) != []
    && |Elements(tr, "td", 0)| >= 6
  }

  /** The outcome of one row (analyze.py:302-327): the symbol is the third
      cell without tags, the close time the last timestamp token, the profit
      the money value of the last cell. */
  function Classify(tr: string): (o: Outcome)
    ensures o != Skipped <==> Qualifies(tr)
    ensures o.Parsed? ==> o.row.symbol != [] && Normal(o.row.symbol)
    ensures o.Parsed? ==> o.row.t.Some? ==> ValidDateTime(o.row.t.value)
  {
    if !Qualifies(tr) then Skipped
    else
      var dts := DtTokens(tr, 0);
      var tds := Elements(tr, "td", 0);
      var symbol := StripTags(tds[2]);
      if symbol == [] then Unparsed
      else
        match ParseMoney(StripTags(tds[|tds| - 1]))
        case None => Unparsed
        case Some(p) => Parsed(Row(symbol, p, ParseDt(dts[|dts| - 1])))
  }

  /** The number of rows counted as seen. */
  function SeenCount(trs: seq<string>): nat
  {
    if trs == [] then 0
    else SeenCount(trs[..|trs| - 1]) + (if Classify(trs[|trs| - 1]) != Skipped then 1 else 0)
  }

  /** The records emitted, in row order. */
  function ParsedRows(trs: seq<string>): seq<Row>
  {
    if trs == [] then []
    else
      var o := Classify(trs[|trs| - 1]);
      ParsedRows(trs[..|trs| - 1]) + (if o.Parsed? then [o.row] else [])
  }

  /** Every record emitted counts as seen, and no row counts twice. */
  lemma {:induction false} ParsedWithinSeen(trs: seq<string>)
    ensures |ParsedRows(trs)| <= SeenCount(trs) <= |trs|
    decreases |trs|
  {
    if trs != [] {
      ParsedWithinSeen(trs[..|trs| - 1]);
    }
  }

  /** Every record comes from a qualifying row of the input, carries a
      non-empty symbol and a valid close time when it has one. */
  lemma {:induction false} ParsedRowsSound(trs: seq<string>)
    ensures forall x :: x in ParsedRows(trs) ==>
      exists tr :: tr in trs && Qualifies(tr) && Classify(tr) == Parsed(x)
    decreases |trs|
  {
    if trs != [] {
      var init := trs[..|trs| - 1];
      ParsedRowsSound(init);
      forall x | x in ParsedRows(trs)
        ensures exists tr :: tr in trs && Qualifies(tr) && Classify(tr) == Parsed(x)
      {
        if x in ParsedRows(init) {
          var tr :| tr in init && Qualifies(tr) && Classify(tr) == Parsed(x);
          assert tr in trs;
        } else {
          assert Classify(trs[|trs| - 1]) == Parsed(x);
        }
      }
    }
  }

  /** The body of the loop of analyze.py:301-327 for one row: each check
      that fails ends the row early. */
  method ReadRow(tr: string) returns (o: Outcome)
    ensures o == Classify(tr)
  {
    if !(Contains(tr, ColspanDouble) || Contains(tr, ColspanSingle)) {
      return Skipped;
    }
    var dtMatches := DtTokens(tr, 0);
    if |dtMatches| < 1 {
      return Skipped;
    }
    var tds := Elements(tr, "td", 0);
    if |tds| < 6 {
      return Skipped;
    }
    var symbol := StripTags(tds[2]);
    if symbol == [] {
      return Unparsed;
    }
    var closeTime := ParseDt(dtMatches[|dtMatches| - 1]);
    var profit := ParseMoney(StripTags(tds[|tds| - 1]));
    if profit.None? {
      return Unparsed;
    }
    return Parsed(Row(symbol, profit.value, closeTime));
  }

  /** One more row adds its own outcome to the counters. */
  lemma CountStep(trs: seq<string>, i: nat)
    requires i < |trs|
    ensures SeenCount(trs[..i + 1]) == SeenCount(trs[..i]) + (if Classify(trs[i]) != Skipped then 1 else 0)
    ensures ParsedRows(trs[..i + 1]) == ParsedRows(trs[..i]) + (if Classify(trs[i]).Parsed? then [Classify(trs[i]).row] else [])
  {
    assert trs[..i + 1][..i] == trs[..i];
  }

  /** `_parse_positions_rows_for_charts` (analyze.py:290-334). */
  method ParsePositionsRows(html: string) returns (rows: seq<Row>, dbg: PositionsDebug)
    ensures ExtractPositionsBlock(html) == [] ==> rows == [] && dbg == PositionsDebug(false, 0, 0)
    ensures ExtractPositionsBlock(html) != [] ==>
      var trs := Elements(ExtractPositionsBlock(html), "tr", 0);
      rows == ParsedRows(trs) && dbg == PositionsDebug(true, SeenCount(trs), |rows|)
    ensures dbg.rowsParsed == |rows| <= dbg.rowsSeen
    ensures forall x :: x in rows ==> x.symbol != []
  {
    var block := ExtractPositionsBlock(html);
    if block == [] {
      return [], PositionsDebug(false, 0, 0);
    }
    var trs := Elements(block, "tr", 0);
    rows := [];
    var rowsSeen := 0;
    var rowsParsed := 0;
    for i := 0 to |trs|
      invariant rows == ParsedRows(trs[..i])
      invariant rowsSeen == SeenCount(trs[..i])
      invariant rowsParsed == |rows| <= rowsSeen
      invariant forall x :: x in rows ==> x.symbol != []
    {
      var outcome := ReadRow(trs[i]);
      CountStep(trs, i);
      if outcome == Skipped {
        continue;
      }
      rowsSeen := rowsSeen + 1;
      if !outcome.Parsed? {
        continue;
      }
      rowsParsed := rowsParsed + 1;
      rows := rows + [outcome.row];
    }
    assert trs[..|trs|] == trs;
    dbg := PositionsDebug(true, rowsSeen, rowsParsed);
  }
}
