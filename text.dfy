/** Text normaliser of the report reader (analyze.py `_norm`, `_strip_tags`):
    whitespace handling as Python's `str.isspace`, `re.sub(r"\s+", " ", s)`
    and `str.strip()` define it, plus the searching helpers the scanners
    of the other modules share. */
module Text {
  import opened Basics

  /** The characters Python treats as whitespace in `str.isspace`,
      `str.strip()` and the `\s` class of a `str` regular expression. */
  predicate IsSpace(c: char)
  {
    ('\t' <= c <= '\r') || ('\U{1C}' <= c <= ' ') || c == '\U{85}' || c == '\U{A0}'
    || c == '\U{1680}' || ('\U{2000}' <= c <= '\U{200A}') || c == '\U{2028}'
    || c == '\U{2029}' || c == '\U{202F}' || c == '\U{205F}' || c == '\U{3000}'
  }

  /** U+00A0, the non-breaking space the report uses inside numbers. */
  const Nbsp: char := '\U{A0}'

  /** Every whitespace character is a plain ASCII space. */
  predicate OnlyPlainSpaces(s: string)
  {
    forall i :: 0 <= i < |s| && IsSpace(s[i]) ==> s[i] == ' '
  }

  /** Whitespace at `i` and at `i + 1`. */
  predicate SpacePair(s: string, i: nat)
  {
    i + 1 < |s| && IsSpace(s[i]) && IsSpace(s[i + 1])
  }

  /** No two whitespace characters are adjacent. */
  predicate NoDoubleSpace(s: string)
  {
    forall i :: 0 <= i < |s| ==> !SpacePair(s, i)
  }

  /** The shape of every string `Norm` returns. */
  predicate Normal(s: string)
  {
    && OnlyPlainSpaces(s)
    && NoDoubleSpace(s)
    && (s != [] ==> !IsSpace(s[0]) && !IsSpace(s[|s| - 1]))
  }

  /** `s.replace("\xa0", " ")`. */
  function ReplaceNbsp(s: string): string
  {
    seq(|s|, i requires 0 <= i < |s| => if s[i] == Nbsp then ' ' else s[i])
  }

  /** `s.lstrip()`: the suffix left after the leading whitespace. */
  function TrimLeft(s: string): (r: string)
    ensures |r| <= |s|
    ensures s != [] && IsSpace(s[0]) ==> |r| < |s|
    ensures r == [] || !IsSpace(r[0])
  {
    if s != [] && IsSpace(s[0]) then TrimLeft(s[1..]) else s
  }

  /** What `TrimLeft` removes is a whitespace prefix, and only that. */
  lemma {:induction false} TrimLeftSuffix(s: string)
    ensures TrimLeft(s) == s[|s| - |TrimLeft(s)|..]
    ensures forall i :: 0 <= i < |s| - |TrimLeft(s)| ==> IsSpace(s[i])
    decreases |s|
  {
    if s != [] && IsSpace(s[0]) {
      TrimLeftSuffix(s[1..]);
    }
  }

  /** `s.rstrip()`: the prefix left before the trailing whitespace. */
  function TrimRight(s: string): (r: string)
    ensures |r| <= |s|
    ensures r == [] || !IsSpace(r[|r| - 1])
  {
    if s != [] && IsSpace(s[|s| - 1]) then TrimRight(s[..|s| - 1]) else s
  }

  /** What `TrimRight` removes is a whitespace suffix, and only that. */
  lemma {:induction false} TrimRightPrefix(s: string)
    ensures TrimRight(s) == s[..|TrimRight(s)|]
    ensures forall i :: |TrimRight(s)| <= i < |s| ==> IsSpace(s[i])
    decreases |s|
  {
    if s != [] && IsSpace(s[|s| - 1]) {
      TrimRightPrefix(s[..|s| - 1]);
    }
  }

  /** `s.strip()`. */
  function Strip(s: string): string
  {
    TrimRight(TrimLeft(s))
  }

  /** `re.sub(r"\s+", " ", s)`: every maximal run of whitespace becomes one
      plain space. */
  function Collapse(s: string): (r: string)
    ensures OnlyPlainSpaces(r) && NoDoubleSpace(r)
    ensures r == [] <==> s == []
    ensures s != [] ==> (IsSpace(r[0]) <==> IsSpace(s[0]))
    decreases |s|
  {
    if s == [] then []
    else if IsSpace(s[0]) then
      ConsKeepsNoDouble(' ', Collapse(TrimLeft(s)));
      [' '] + Collapse(TrimLeft(s))
    else
      ConsKeepsNoDouble(s[0], Collapse(s[1..]));
      [s[0]] + Collapse(s[1..])
  }

  /** Putting a character in front of a string without adjacent whitespace
      keeps it so, unless both the character and the old head are
      whitespace. */
  lemma ConsKeepsNoDouble(c: char, rest: string)
    requires NoDoubleSpace(rest)
    requires IsSpace(c) && rest != [] ==> !IsSpace(rest[0])
    ensures NoDoubleSpace([c] + rest)
  {
    var r := [c] + rest;
    forall i | 0 <= i < |r|
      ensures !SpacePair(r, i)
    {
      if 0 < i && i + 1 < |r| {
        assert r[i] == rest[i - 1] && r[i + 1] == rest[i];
        assert !SpacePair(rest, i - 1);
      }
    }
  }

  /** A contiguous piece of a collapsed string is still collapsed. */
  lemma SliceKeepsCollapsed(s: string, lo: nat, hi: nat)
    requires lo <= hi <= |s|
    requires OnlyPlainSpaces(s) && NoDoubleSpace(s)
    ensures OnlyPlainSpaces(s[lo..hi]) && NoDoubleSpace(s[lo..hi])
  {
    var t := s[lo..hi];
    forall i: nat | i + 1 < |t|
      ensures !SpacePair(t, i)
    {
      assert t[i] == s[lo + i] && t[i + 1] == s[lo + i + 1];
      assert !SpacePair(s, lo + i);
    }
  }

  /** `_norm` (analyze.py:181-186): non-breaking spaces become spaces, every
      whitespace run becomes one space, and the ends are trimmed. */
  function Norm(s: string): (r: string)
    ensures Normal(r)
    ensures forall i :: 0 <= i < |r| ==> r[i] != Nbsp
  {
    var c := Collapse(ReplaceNbsp(s));
    var l := TrimLeft(c);
    TrimLeftSuffix(c);
    TrimRightPrefix(l);
    SliceKeepsCollapsed(c, |c| - |l|, |c|);
    var r := TrimRight(l);
    SliceKeepsCollapsed(l, 0, |r|);
    r
  }

  /** The non-whitespace characters of `s`, in order. */
  function NonSpace(s: string): string
  {
    if s == [] then [] else (if IsSpace(s[0]) then [] else [s[0]]) + NonSpace(s[1..])
  }

  lemma {:induction false} NonSpaceAppend(a: string, b: string)
    ensures NonSpace(a + b) == NonSpace(a) + NonSpace(b)
    decreases |a|
  {
    if a == [] {
      assert a + b == b;
    } else {
      assert (a + b)[1..] == a[1..] + b;
      NonSpaceAppend(a[1..], b);
    }
  }

  lemma {:induction false} NonSpaceReplaceNbsp(s: string)
    ensures NonSpace(ReplaceNbsp(s)) == NonSpace(s)
    decreases |s|
  {
    if s != [] {
      assert ReplaceNbsp(s)[1..] == ReplaceNbsp(s[1..]);
      NonSpaceReplaceNbsp(s[1..]);
    }
  }

  lemma {:induction false} NonSpaceTrimLeft(s: string)
    ensures NonSpace(TrimLeft(s)) == NonSpace(s)
    decreases |s|
  {
    if s != [] && IsSpace(s[0]) {
      NonSpaceTrimLeft(s[1..]);
    }
  }

  lemma {:induction false} NonSpaceTrimRight(s: string)
    ensures NonSpace(TrimRight(s)) == NonSpace(s)
    decreases |s|
  {
    if s != [] && IsSpace(s[|s| - 1]) {
      var p := s[..|s| - 1];
      assert s == p + [s[|s| - 1]];
      NonSpaceAppend(p, [s[|s| - 1]]);
      NonSpaceTrimRight(p);
    }
  }

  lemma {:induction false} NonSpaceCollapse(s: string)
    ensures NonSpace(Collapse(s)) == NonSpace(s)
    decreases |s|
  {
    if s != [] {
      if IsSpace(s[0]) {
        NonSpaceTrimLeft(s);
        NonSpaceCollapse(TrimLeft(s));
        NonSpaceAppend([' '], Collapse(TrimLeft(s)));
      } else {
        NonSpaceCollapse(s[1..]);
        NonSpaceAppend([s[0]], Collapse(s[1..]));
      }
    }
  }

  /** `_norm` changes only whitespace: the visible characters survive in
      order, none is added and none is lost. */
  lemma NormKeepsText(s: string)
    ensures NonSpace(Norm(s)) == NonSpace(s)
  {
    var c := Collapse(ReplaceNbsp(s));
    NonSpaceReplaceNbsp(s);
    NonSpaceCollapse(ReplaceNbsp(s));
    NonSpaceTrimLeft(c);
    NonSpaceTrimRight(TrimLeft(c));
  }

  lemma {:induction false} InNonSpace(s: string, c: char)
    requires !IsSpace(c)
    ensures c in NonSpace(s) <==> c in s
    decreases |s|
  {
    if s != [] {
      InNonSpace(s[1..], c);
      assert s == [s[0]] + s[1..];
    }
  }

  /** A visible character occurs in the output of `_norm` exactly when it
      occurs in the input. */
  lemma NormKeepsChar(s: string, c: char)
    requires !IsSpace(c)
    ensures c in Norm(s) <==> c in s
  {
    NormKeepsText(s);
    InNonSpace(s, c);
    InNonSpace(Norm(s), c);
  }

  lemma {:induction false} CollapseFixed(t: string)
    requires OnlyPlainSpaces(t) && NoDoubleSpace(t)
    ensures Collapse(t) == t
    decreases |t|
  {
    if t != [] {
      SliceKeepsCollapsed(t, 1, |t|);
      assert t[1..|t|] == t[1..];
      if IsSpace(t[0]) {
        assert !SpacePair(t, 0);
        assert TrimLeft(t) == t[1..];
      }
      CollapseFixed(t[1..]);
    }
  }

  /** A string already in normal form is left unchanged by `_norm`. */
  lemma NormalIsFixed(t: string)
    requires Normal(t)
    ensures Norm(t) == t
  {
    assert ReplaceNbsp(t) == t;
    CollapseFixed(t);
    assert TrimLeft(t) == t;
    assert TrimRight(t) == t;
  }

  /** `_norm` is idempotent. */
  lemma NormIdempotent(s: string)
    ensures Norm(Norm(s)) == Norm(s)
  {
    NormalIsFixed(Norm(s));
  }

  /** True when `s.strip()` is empty, i.e. `not s.strip()`. */
  predicate IsBlank(s: string)
  {
    forall i :: 0 <= i < |s| ==> IsSpace(s[i])
  }

  /** The first index `k >= from` with `s[k] == c`, if any. */
  function IndexOf(s: string, c: char, from: nat): (r: Option<nat>)
    ensures r.Some? ==> from <= r.value < |s| && s[r.value] == c
    ensures r.Some? ==> forall k :: from <= k < r.value ==> s[k] != c
    ensures r.None? ==> forall k :: from <= k < |s| ==> s[k] != c
    decreases |s| - from
  {
    if from >= |s| then None
    else if s[from] == c then Some(from)
    else IndexOf(s, c, from + 1)
  }

  /** For `s[0] == '<'`: the index of the `>` closing a match of
      `<[^>]+>` at the start of `s`, when there is one. */
  function TagEnd(s: string): (r: Option<nat>)
    requires s != [] && s[0] == '<'
    ensures r.Some? ==> 2 <= r.value < |s| && s[r.value] == '>'
    ensures r.None? ==> (|s| > 1 && s[1] == '>') || forall k :: 1 <= k < |s| ==> s[k] != '>'
  {
    match IndexOf(s, '>', 1)
    case None => None
    case Some(j) => if j >= 2 then Some(j) else None
  }

  /** What `re.sub(r"<[^>]+>", "", s)` can leave behind: a `<` is either
      directly followed by `>` or has no `>` anywhere after it. */
  predicate NoTagLeft(r: string)
  {
    forall i :: 0 <= i < |r| && r[i] == '<' ==>
      (i + 1 < |r| && r[i + 1] == '>') || '>' !in r[i + 1..]
  }

  /** `re.sub(r"<[^>]+>", "", s)`, scanning left to right. */
  function RemoveTags(s: string): (r: string)
    ensures |r| <= |s|
    decreases |s|
  {
    if s == [] then []
    else if s[0] == '<' && TagEnd(s).Some? then RemoveTags(s[TagEnd(s).value + 1..])
    else [s[0]] + RemoveTags(s[1..])
  }

  /** Removing tags only deletes characters, leaves text without `<`
      as it is, and leaves no complete tag behind. */
  lemma {:induction false} RemoveTagsSpec(s: string)
    ensures forall c :: c in RemoveTags(s) ==> c in s
    ensures '<' !in s ==> RemoveTags(s) == s
    ensures NoTagLeft(RemoveTags(s))
    decreases |s|
  {
    if s == [] {
    } else if s[0] == '<' && TagEnd(s).Some? {
      var rest := s[TagEnd(s).value + 1..];
      RemoveTagsSpec(rest);
      forall c | c in RemoveTags(rest) ensures c in s {
        assert c in rest;
      }
    } else {
      var rest := s[1..];
      RemoveTagsSpec(rest);
      var t := RemoveTags(rest);
      var r := [s[0]] + t;
      forall c | c in r ensures c in s {
        if c != s[0] {
          assert c in t;
        }
      }
      if '<' !in s {
        assert '<' !in rest;
      }
      forall i | 0 <= i < |r| && r[i] == '<'
        ensures (i + 1 < |r| && r[i + 1] == '>') || '>' !in r[i + 1..]
      {
        if i == 0 {
          assert r[1..] == t;
          if TagEnd(s).None? && !(|s| > 1 && s[1] == '>') {
            forall k | 0 <= k < |t| ensures t[k] != '>' {
              assert t[k] in rest;
            }
          }
          if |s| > 1 && s[1] == '>' && t != [] {
            RemoveTagsStarts(rest);
          }
        } else {
          assert r[i] == t[i - 1];
          assert r[i + 1..] == t[i..];
        }
      }
    }
  }

  /** The first character survives when it does not open a tag. */
  lemma RemoveTagsStarts(s: string)
    requires s != [] && s[0] != '<'
    ensures RemoveTags(s) != [] && RemoveTags(s)[0] == s[0]
  {
  }

  /** `_strip_tags` (analyze.py:271-273). */
  function StripTags(s: string): (r: string)
    ensures Normal(r)
    ensures '<' !in s ==> r == Norm(s)
  {
    RemoveTagsSpec(s);
    Norm(RemoveTags(s))
  }
}
